# armedis core, modelled in Dafny

armedis is an HTTP gateway in front of a Redis store. This project models
the four parts of it that hold sequential logic, with the Redis client, the
Spring container and the HTTP layer replaced by parameters:

- **Keyspace parser** (`Keyspace.convert`). It reads the keyspace section
  of an `INFO` reply, such as `db0:keys=1121,expires=3,avg_ttl=0` with
  lines separated by CRLF. The result is a TreeMap from db number to a
  fresh `Keyspace` record per line. Files: `keyspace.dfy` (the class, its
  setters, the loops and the specification functions) and
  `keyspace_facts.dfy` (properties of the conversion).
- **Server detector** (`RedisServerDetector`). It parses the seed list
  `host:port,host:port` into a set of nodes. It tries the seeds in order
  until one connects, marking every failed seed invalid. It reads the
  topology from the `redis_mode` line of the seed's `INFO` reply and looks
  the servers up. File: `server_detector.dfy`.
- **Command executor** (`RedisCommandExecutor.execute`). It routes a
  request to the non-cluster or the cluster pool segment by the topology
  fixed at construction. File: `command_executor.dfy`.
- **Stats bucket** (`RedisStatInfoBucket`). It holds a history queue
  (`CircularFifoQueue` of capacity 20), `getStats`, the conversion of the
  `CLUSTER NODES` text into a node list, and one pass of the monitor
  thread over the nodes. File: `stat_info_bucket.dfy`.

Shared pieces:

- `java_lang.dfy` holds what the code takes from the Java library. It covers
  `String.split` with limit 0, including the dropping of trailing empty
  strings. It also covers `BufferedReader` line reading,
  `Integer.parseInt`/`Integer.toString` and Guava's lower_underscore →
  lowerCamel translation.
- `tree_map.dfy` models `TreeMap<Integer, V>` as its entry list in
  iteration order.
- `connection_pool.dfy` models the connection pool as two segments of lent
  connections with a capacity each.
- `instance_type.dfy` gives the table assumed for `RedisInstanceType.of`.

Where the code and the project's description of itself disagree, the model
follows the code:

- A keyspace line with a bad db number or a piece without `=` throws and
  aborts the whole conversion; it is not skipped.
- `getSeedConnection` tries every seed, whatever its `valid` flag says.
- `execute` never gives its connection back to the pool.

## Model

| member | source | states |
|---|---|---|
| RedisInfo.Keyspace.constructor | src/main/java/com/github/armedis/redis/info/Keyspace.java:9-12 | a new record has every field 0 |
| RedisInfo.Keyspace.SetNo | src/main/java/com/github/armedis/redis/info/Keyspace.java:70-72 | sets `no` and nothing else |
| RedisInfo.Keyspace.SetKeys | src/main/java/com/github/armedis/redis/info/Keyspace.java:78-80 | sets `keys` and nothing else |
| RedisInfo.Keyspace.SetExpires | src/main/java/com/github/armedis/redis/info/Keyspace.java:86-88 | sets `expires` and nothing else |
| RedisInfo.Keyspace.SetAvgTtl | src/main/java/com/github/armedis/redis/info/Keyspace.java:94-96 | sets `avgTtl` and nothing else |
| RedisInfo.AssignField | src/main/java/com/github/armedis/redis/info/Keyspace.java:50 | the assumed setField table: an assignment never changes `no`, and its only failure is NumberFormatException |
| RedisInfo.AssignPiece | src/main/java/com/github/armedis/redis/info/Keyspace.java:44-50 | a piece fails only with ArrayIndexOutOfBoundsException (no second `=`-part) or NumberFormatException (a value that is not an int) |
| RedisInfo.AssignPieces | src/main/java/com/github/armedis/redis/info/Keyspace.java:43-51 | the pieces of a line fail only with those two exceptions |
| RedisInfo.ParseLine | src/main/java/com/github/armedis/redis/info/Keyspace.java:31-52 | a line is skipped exactly when its `:`-split does not have two parts; a line that yields a record has a leader of two or more characters followed by an int; the only exceptions are StringIndexOutOfBounds, NumberFormat and ArrayIndexOutOfBounds |
| RedisInfo.ConvertLines | src/main/java/com/github/armedis/redis/info/Keyspace.java:30-55 | the map holds at most one entry per line; the only exceptions are those a line can throw |
| RedisInfo.Converted | src/main/java/com/github/armedis/redis/info/Keyspace.java:25-58 | what convert returns: at most one entry per CRLF-separated line, or one of the exceptions a line can throw |
| RedisInfo.Keyspace.SetField | src/main/java/com/github/armedis/redis/info/Keyspace.java:50 | the record ends as the table says; on failure it is unchanged |
| RedisInfo.Keyspace.AssignPair | src/main/java/com/github/armedis/redis/info/Keyspace.java:44-50 | one `key=value` piece: split on `=`, name translated to lowerCamel, assigned; no `=` throws ArrayIndexOutOfBoundsException |
| RedisInfo.Keyspace.AssignAll | src/main/java/com/github/armedis/redis/info/Keyspace.java:41-51 | the pieces are assigned left to right, and the first that throws ends the line with its exception |
| RedisInfo.Keyspace.ConvertLine | src/main/java/com/github/armedis/redis/info/Keyspace.java:31-52 | one line gives a fresh record, nothing (not two `:`-parts), or the exception of the short leader, the bad db number or a bad piece |
| RedisInfo.Keyspace.Convert | src/main/java/com/github/armedis/redis/info/Keyspace.java:25-58 | the map holds, entry for entry, the db numbers and fields of the specification `Converted`, or the first exception; every record in it was created by this call |
| RedisInfo.Keyspace.ConvertAll | src/main/java/com/github/armedis/redis/info/Keyspace.java:30-55 | the loop over the lines puts each line's record into the TreeMap in line order, as `ConvertLines` says; every record in it is a new one |
| RedisInfo.Keyspace.PutLine | src/main/java/com/github/armedis/redis/info/Keyspace.java:31-53 | one iteration: the line's exception, no change, or the put of a new record holding the line's fields |
| RedisInfo.Keyspace.AssignNext | src/main/java/com/github/armedis/redis/info/Keyspace.java:43-51 | one iteration of the piece loop, as `AssignPieces` says for one more piece |
| RedisInfo.PutHolds | src/main/java/com/github/armedis/redis/info/Keyspace.java:53 | putting a record into the map keeps map and specification in step |
| RedisInfo.PiecesStep | src/main/java/com/github/armedis/redis/info/Keyspace.java:43-51 | one more piece is assigned onto the record built so far |
| RedisInfo.PiecesAbort | src/main/java/com/github/armedis/redis/info/Keyspace.java:43-51 | once a piece has thrown, later pieces change nothing |
| RedisInfo.ConvertStep | src/main/java/com/github/armedis/redis/info/Keyspace.java:30-55 | one more line: the exception, no change, or a put of the line's record |
| RedisInfo.ConvertAborts | src/main/java/com/github/armedis/redis/info/Keyspace.java:30-55 | once a line has thrown, later lines change nothing |
| KeyspaceFacts.PutKeyed | src/main/java/com/github/armedis/redis/info/Keyspace.java:53 | a put under the record's own `no` keeps every key equal to its record's `no` |
| KeyspaceFacts.ConvertLinesShape | src/main/java/com/github/armedis/redis/info/Keyspace.java:26-53 | the result is in strictly ascending db-number order, and every key is its record's `no` |
| KeyspaceFacts.ConvertLinesLast | src/main/java/com/github/armedis/redis/info/Keyspace.java:26-53 | looking up a db number gives the record of the last line with that number (a later line replaces an earlier one), and nothing when no line has it |
| KeyspaceFacts.ConvertSingle | src/main/java/com/github/armedis/redis/info/Keyspace.java:28-53 | content of one line that yields a record gives a map of exactly that record |
| KeyspaceFacts.ConvertSkips | src/main/java/com/github/armedis/redis/info/Keyspace.java:37 | a line that yields no record leaves the map as it was |
| KeyspaceFacts.ConvertFailsAt | src/main/java/com/github/armedis/redis/info/Keyspace.java:38-47 | a line that throws aborts the whole conversion with its exception |
| KeyspaceFacts.SkipNoColon | src/main/java/com/github/armedis/redis/info/Keyspace.java:33-37 | a line without `:` (such as `# Keyspace`) is skipped |
| KeyspaceFacts.SkipEmptyBody | src/main/java/com/github/armedis/redis/info/Keyspace.java:33-37 | a line ending at its only `:` (such as `db0:`) is skipped, because split drops the empty last part |
| KeyspaceFacts.SkipThreeParts | src/main/java/com/github/armedis/redis/info/Keyspace.java:33-37 | a line with three non-empty `:`-parts (such as `a:b:c`) is skipped |
| KeyspaceFacts.LeaderErrors | src/main/java/com/github/armedis/redis/info/Keyspace.java:33-39 | for every line that splits into two parts on `:` (trailing empty parts dropped, so `db0:keys=1::` counts): the db number is the leader after its first two characters, which are never checked; a shorter leader throws StringIndexOutOfBoundsException and a non-number NumberFormatException |
| KeyspaceFacts.PiecesKeepNo | src/main/java/com/github/armedis/redis/info/Keyspace.java:39-53 | assigning the pieces never changes `no`, so the map key is the db number of the leader |
| KeyspaceFacts.PieceWithoutEquals | src/main/java/com/github/armedis/redis/info/Keyspace.java:44-47 | a piece without `=` throws ArrayIndexOutOfBoundsException |
| KeyspaceFacts.FieldUntouched | src/main/java/com/github/armedis/redis/info/Keyspace.java:44-50 | a piece changes no field other than the one its translated name picks |
| KeyspaceFacts.AssignFieldOther | src/main/java/com/github/armedis/redis/info/Keyspace.java:50 | the table sets only the field it is given the name of |
| KeyspaceFacts.PiecesUntouched | src/main/java/com/github/armedis/redis/info/Keyspace.java:43-51 | a field that no piece names keeps its starting value |
| KeyspaceFacts.AbsentFieldsZero | src/main/java/com/github/armedis/redis/info/Keyspace.java:31-51 | in the record of any line that yields one, every field that none of the pieces of its body names is 0 |
| KeyspaceFacts.StoreNamesFree | src/main/java/com/github/armedis/redis/info/Keyspace.java:33-44 | the store's field names hold none of the characters the parser splits on |
| KeyspaceFacts.PieceRoundTrip | src/main/java/com/github/armedis/redis/info/Keyspace.java:44-50 | a piece `name=<v>` assigns `v`'s text to the field the translated name picks |
| KeyspaceFacts.CamelWord | src/main/java/com/github/armedis/redis/info/Keyspace.java:49 | a one-word name such as `keys` is its own lowerCamel form |
| KeyspaceFacts.CamelAvgTtl | src/main/java/com/github/armedis/redis/info/Keyspace.java:49 | `avg_ttl` is translated to `avgTtl` |
| KeyspaceFacts.AssignFieldParsed | src/main/java/com/github/armedis/redis/info/Keyspace.java:50 | each of the three table entries takes the value Integer.toString wrote |
| KeyspaceFacts.KeysPieceSets | src/main/java/com/github/armedis/redis/info/Keyspace.java:44-50 | `keys=<v>` sets `keys` to `v` |
| KeyspaceFacts.ExpiresPieceSets | src/main/java/com/github/armedis/redis/info/Keyspace.java:44-50 | `expires=<v>` sets `expires` to `v` |
| KeyspaceFacts.AvgTtlPieceSets | src/main/java/com/github/armedis/redis/info/Keyspace.java:44-50 | `avg_ttl=<v>` sets `avgTtl` to `v` |
| KeyspaceFacts.PieceFree | src/main/java/com/github/armedis/redis/info/Keyspace.java:33-44 | a written piece holds no separator its name does not hold |
| KeyspaceFacts.BodyFree | src/main/java/com/github/armedis/redis/info/Keyspace.java:28-33 | a written body holds no `:` and no CR |
| KeyspaceFacts.BodySplit | src/main/java/com/github/armedis/redis/info/Keyspace.java:41 | a written body splits at its two commas into its three pieces |
| KeyspaceFacts.BodyAssigns | src/main/java/com/github/armedis/redis/info/Keyspace.java:43-51 | the three written pieces, assigned in order, set the three fields |
| KeyspaceFacts.ParseLineWith | src/main/java/com/github/armedis/redis/info/Keyspace.java:31-52 | a line in the store's format parses back to the record it was written from |
| KeyspaceFacts.NoCrLine | src/main/java/com/github/armedis/redis/info/Keyspace.java:28 | a written line holds no CR |
| KeyspaceFacts.ConvertLineWith | src/main/java/com/github/armedis/redis/info/Keyspace.java:25-58 | content of one written line converts to the map of exactly that record |
| KeyspaceFacts.ConvertFormatLine | src/main/java/com/github/armedis/redis/info/Keyspace.java:25-58 | round trip: converting one line in the store's own format gives exactly the record it was written from, under its db number |
| KeyspaceFacts.FormatExample | src/main/java/com/github/armedis/redis/info/Keyspace.java:36 | the store writes Stats(0, 10, 2, 5) as `db0:keys=10,expires=2,avg_ttl=5` |
| KeyspaceFacts.ConvertExample | src/main/java/com/github/armedis/redis/info/Keyspace.java:25-58 | `db0:keys=10,expires=2,avg_ttl=5` gives exactly the entry `0 → {no=0, keys=10, expires=2, avgTtl=5}` |
| TreeMap.KeysAt | src/main/java/com/github/armedis/redis/info/Keyspace.java:26 | the keys of the map are exactly the first components of its entries |
| TreeMap.Get | src/main/java/com/github/armedis/redis/info/Keyspace.java:53 | a value that get finds is the value of an entry under that key; get finds nothing only when no entry has the key |
| TreeMap.Put | src/main/java/com/github/armedis/redis/info/Keyspace.java:53 | put adds at most one entry |
| TreeMap.PutEntries | src/main/java/com/github/armedis/redis/info/Keyspace.java:53 | put adds no entry other than the one it is given |
| TreeMap.PutKeys | src/main/java/com/github/armedis/redis/info/Keyspace.java:53 | put adds its key to the key set and no other key |
| TreeMap.PutAbove | src/main/java/com/github/armedis/redis/info/Keyspace.java:53 | put of a key above a bound keeps every key above that bound |
| TreeMap.PutAscending | src/main/java/com/github/armedis/redis/info/Keyspace.java:53 | put keeps the entries in strictly ascending key order |
| TreeMap.PutGet | src/main/java/com/github/armedis/redis/info/Keyspace.java:53 | after put, get finds the new value under its key and the old values under every other key |
| TreeMap.GetKeys | src/main/java/com/github/armedis/redis/info/Keyspace.java:26 | get finds a value exactly for the keys of the map |
| JavaLang.DropTrailingEmpty | src/main/java/com/github/armedis/redis/info/Keyspace.java:33 | a prefix of the pieces that does not end in an empty string; only empty strings are dropped |
| JavaLang.NextMatch | src/main/java/com/github/armedis/redis/info/Keyspace.java:33 | the search for the next separator stops at a match or at the end of the text |
| JavaLang.SplitAll | src/main/java/com/github/armedis/redis/info/Keyspace.java:33 | the pieces between separator matches: there is always at least one |
| JavaLang.Split | src/main/java/com/github/armedis/redis/info/Keyspace.java:33 | String.split with limit 0: without a match the input alone; otherwise a prefix of the pieces that does not end in an empty string |
| JavaLang.SplitNoMatch | src/main/java/com/github/armedis/redis/info/Keyspace.java:28 | split on a separator that never occurs gives the input alone |
| JavaLang.NoCrNoMatch | src/main/java/com/github/armedis/redis/info/Keyspace.java:28 | text without CR has no CRLF to split at |
| JavaLang.CharNoMatch | src/main/java/com/github/armedis/redis/info/Keyspace.java:33 | text without the separator character and without line breaks has no match of any separator |
| JavaLang.NextMatchNone | src/main/java/com/github/armedis/redis/info/Keyspace.java:33 | the search for a separator that never occurs runs to the end |
| JavaLang.NextMatchLeftmost | src/main/java/com/github/armedis/redis/info/Keyspace.java:33 | split cuts at the leftmost separator: none occurs before it |
| JavaLang.NextMatchPrefix | src/main/java/com/github/armedis/redis/info/Keyspace.java:33 | a separator-free prefix is passed over by the search |
| JavaLang.SplitAtChar | src/main/java/com/github/armedis/redis/info/Keyspace.java:33 | the first piece is the text before the first separator, and the rest is split the same way |
| JavaLang.SplitTwoParts | src/main/java/com/github/armedis/redis/info/Keyspace.java:33 | text with one separator and a non-empty tail splits into exactly two parts |
| JavaLang.SplitThreeParts | src/main/java/com/github/armedis/redis/info/Keyspace.java:33 | text with two separators and a non-empty tail splits into exactly three parts |
| JavaLang.SplitAllPiecesFree | src/main/java/com/github/armedis/redis/connection/RedisServerDetector.java:45 | no piece of a split holds the separator character |
| JavaLang.SplitPiecesFree | src/main/java/com/github/armedis/redis/connection/RedisServerDetector.java:45 | the same after trailing empties are dropped |
| JavaLang.JoinSplitAll | src/main/java/com/github/armedis/redis/info/Keyspace.java:33 | the pieces of a split, joined back with the separator, give the input |
| JavaLang.ReadLines | src/main/java/com/github/armedis/http/service/stats/RedisStatInfoBucket.java:113 | IOUtils.readLines: no line holds a line break, and only empty text gives no lines |
| JavaLang.ReadLineAndRest | src/main/java/com/github/armedis/http/service/stats/RedisStatInfoBucket.java:113 | a newline-terminated first line is read, then the rest |
| JavaLang.ReadLinesUnixText | src/main/java/com/github/armedis/http/service/stats/RedisStatInfoBucket.java:113 | reading back newline-terminated lines gives exactly those lines |
| JavaLang.ParseInt | src/main/java/com/github/armedis/redis/info/Keyspace.java:39 | Integer.parseInt accepts only text that starts with a sign or a digit |
| JavaLang.IntToString | src/main/java/com/github/armedis/redis/info/Keyspace.java:39 | Integer.toString: non-empty, a leading `-` exactly for a negative value, digits everywhere else |
| JavaLang.DigitsRoundTrip | src/main/java/com/github/armedis/redis/info/Keyspace.java:39 | the decimal digits of n read back as n |
| JavaLang.ParseIntToString | src/main/java/com/github/armedis/redis/info/Keyspace.java:39 | Integer.parseInt reads back every int Integer.toString writes |
| JavaLang.IntToStringChars | src/main/java/com/github/armedis/redis/info/Keyspace.java:39 | an int's text is non-empty and holds only `-` and digits |
| JavaLang.LowerAsciiOfLower | src/main/java/com/github/armedis/redis/info/Keyspace.java:49 | lower-casing a lower-case word changes nothing |
| JavaLang.LowerUnderscoreToLowerCamel | src/main/java/com/github/armedis/redis/info/Keyspace.java:49 | a name without `_` is just lower-cased |
| JavaLang.LowerWordNoMatch | src/main/java/com/github/armedis/redis/info/Keyspace.java:49 | a lower-case word has no underscore |
| JavaLang.LowerCamelOneWord | src/main/java/com/github/armedis/redis/info/Keyspace.java:49 | a single lower-case word translates to itself |
| JavaLang.SplitTwoWords | src/main/java/com/github/armedis/redis/info/Keyspace.java:49 | two lower-case words joined by `_` are read as those two words |
| JavaLang.CapitalizeLower | src/main/java/com/github/armedis/redis/info/Keyspace.java:49 | a later word has only its first letter upper-cased |
| JavaLang.LowerCamelTwoWords | src/main/java/com/github/armedis/redis/info/Keyspace.java:49 | `a_b` becomes `a` followed by `b` with its first letter upper-cased |
| RedisInstance.InstanceTypeOf | src/main/java/com/github/armedis/redis/connection/RedisServerDetector.java:98 | the assumed table: exactly `standalone`, `sentinel` and `cluster` name their types; anything else is NOT_DETECTED |
| ServerDetector.SeedOf | src/main/java/com/github/armedis/redis/connection/RedisServerDetector.java:44-49 | a piece gives no node exactly when it has no `:`; it throws only ArrayIndexOutOfBoundsException or NumberFormatException; a host never holds `:` |
| ServerDetector.AddSeed | src/main/java/com/github/armedis/redis/connection/RedisServerDetector.java:49 | HashSet.add keeps every node already in the set and fails exactly when the piece threw |
| ServerDetector.SeedAddresses | src/main/java/com/github/armedis/redis/connection/RedisServerDetector.java:43-51 | the seed set holds at most one node per piece; the only exceptions are ArrayIndexOutOfBounds and NumberFormat |
| ServerDetector.SeedInfo | src/main/java/com/github/armedis/redis/connection/RedisServerDetector.java:39-54 | the seed set the constructor builds has no node twice, or is one of those two exceptions |
| ServerDetector.AddSeedDistinct | src/main/java/com/github/armedis/redis/connection/RedisServerDetector.java:49 | adding to a set of distinct nodes keeps them distinct |
| ServerDetector.SeedAddressesDistinct | src/main/java/com/github/armedis/redis/connection/RedisServerDetector.java:39-54 | no node is in the seed set twice |
| ServerDetector.SeedAddressesExact | src/main/java/com/github/armedis/redis/connection/RedisServerDetector.java:39-54 | a node is in the seed set exactly when some piece names it |
| ServerDetector.SeedAddressesAbort | src/main/java/com/github/armedis/redis/connection/RedisServerDetector.java:43-51 | a piece that throws aborts the parse whatever follows it |
| ServerDetector.SeedAddressesStep | src/main/java/com/github/armedis/redis/connection/RedisServerDetector.java:43-51 | one more piece adds its node to the set built so far |
| ServerDetector.SeedRoundTrip | src/main/java/com/github/armedis/redis/connection/RedisServerDetector.java:44-49 | `host:port` names the node (host, port) |
| ServerDetector.SeedExtraColon | src/main/java/com/github/armedis/redis/connection/RedisServerDetector.java:45-47 | text after a second `:` is ignored |
| ServerDetector.SeedMissingPort | src/main/java/com/github/armedis/redis/connection/RedisServerDetector.java:45-47 | a piece ending at its only `:` throws ArrayIndexOutOfBoundsException |
| ServerDetector.SeedBadPort | src/main/java/com/github/armedis/redis/connection/RedisServerDetector.java:49 | a port that is not an int throws NumberFormatException |
| ServerDetector.ParseSeed | src/main/java/com/github/armedis/redis/connection/RedisServerDetector.java:44-49 | the loop body for one piece gives a fresh valid node for the address `SeedOf` names, nothing, or its exception |
| ServerDetector.CreateRedisSeedInfo | src/main/java/com/github/armedis/redis/connection/RedisServerDetector.java:39-54 | the seed set is one fresh valid node per distinct address, in the order of the pieces, or the first exception |
| ServerDetector.AddSeedNode | src/main/java/com/github/armedis/redis/connection/RedisServerDetector.java:44-50 | one iteration adds the piece's fresh valid node unless an equal node is present, keeps the nodes already there, or throws the piece's exception |
| ServerDetector.AddSeeds | src/main/java/com/github/armedis/redis/connection/RedisServerDetector.java:43-51 | the loop adds each piece's node unless an equal node is already in the set |
| ServerDetector.RedisServerDetector.Init | src/main/java/com/github/armedis/redis/connection/RedisServerDetector.java:22-28 | the fields start with no instance type and no actual servers |
| ServerDetector.RedisServerDetector.Create | src/main/java/com/github/armedis/redis/connection/RedisServerDetector.java:34-37 | the constructor throws what the seed parse throws, otherwise holds distinct valid seeds in piece order |
| ServerDetector.RedisNode.constructor | src/main/java/com/github/armedis/redis/connection/RedisServerDetector.java:49 | a new node holds its host and port and starts valid |
| ServerDetector.FirstSuccess | src/main/java/com/github/armedis/redis/connection/RedisServerDetector.java:115-121 | the index of the first seed that connects: every earlier one failed |
| ServerDetector.FirstSuccessAt | src/main/java/com/github/armedis/redis/connection/RedisServerDetector.java:115-121 | the first seed that connects is the one after the failures |
| ServerDetector.RedisServerDetector.GetSeedConnection | src/main/java/com/github/armedis/redis/connection/RedisServerDetector.java:114-129 | gives an open connection to the first seed that connects; every seed before it ends invalid and every later one unchanged; when none connects every seed ends invalid and IllegalArgumentException is thrown |
| ServerDetector.LastModeLine | src/main/java/com/github/armedis/redis/connection/RedisServerDetector.java:92-94 | the last line starting with `redis_mode`, if any |
| ServerDetector.ModeOf | src/main/java/com/github/armedis/redis/connection/RedisServerDetector.java:95 | a `redis_mode` line without `:` throws ArrayIndexOutOfBoundsException, the only exception it can throw |
| ServerDetector.ScanLines | src/main/java/com/github/armedis/redis/connection/RedisServerDetector.java:92-101 | while no line named a mode the type field is untouched; once one has, the servers found are the lookup of the type the field holds |
| ServerDetector.LastModeWins | src/main/java/com/github/armedis/redis/connection/RedisServerDetector.java:92-107 | the last `redis_mode` line decides the instance type and the servers; with none, the field is left as it was and no lookup ran in the loop |
| ServerDetector.ModeLineType | src/main/java/com/github/armedis/redis/connection/RedisServerDetector.java:94-98 | `redis_mode:<mode>` starts with `redis_mode` and names the type of `<mode>` |
| ServerDetector.ScanStep | src/main/java/com/github/armedis/redis/connection/RedisServerDetector.java:92-101 | one more INFO line: skipped, or it assigns the type and runs a lookup |
| ServerDetector.ScanAbort | src/main/java/com/github/armedis/redis/connection/RedisServerDetector.java:92-101 | once the scan has thrown, later lines change nothing |
| ServerDetector.Detect | src/main/java/com/github/armedis/redis/connection/RedisServerDetector.java:78-112 | detection succeeds only when info(), role() and clusterInfo() all do; a failing info() or role() leaves the type field as it was; the servers are the lookup of the type the field ends with, or the NOT_DETECTED lookup |
| ServerDetector.DetectLastMode | src/main/java/com/github/armedis/redis/connection/RedisServerDetector.java:86-111 | when detection succeeds, the last `redis_mode` line of the INFO reply decides the type field and the servers; with no such line the field keeps its value and the servers are the NOT_DETECTED lookup's |
| ServerDetector.RedisServerDetector.ScanInfoLines | src/main/java/com/github/armedis/redis/connection/RedisServerDetector.java:92-102 | the loop leaves the type field and the servers as `ScanLines` says |
| ServerDetector.RedisServerDetector.DetectRedisServerNodes | src/main/java/com/github/armedis/redis/connection/RedisServerDetector.java:78-112 | the type field and the result are those of `Detect`: info() is sent first and its exception escapes, then role(), the scan, the NOT_DETECTED lookup when no line named a mode, and clusterInfo() last |
| ServerDetector.RedisServerDetector.LookupNodes | src/main/java/com/github/armedis/redis/connection/RedisServerDetector.java:62-70 | seeds before the first that connects end invalid and later ones unchanged; with no connection IllegalArgumentException is thrown and the type field is unchanged; otherwise the type field and the result are those of `Detect` and the seed connection is closed whether or not detection threw; `actualServers` holds the result on success and is unchanged otherwise |
| ServerDetector.SeedConnection.Close | src/main/java/com/github/armedis/redis/connection/RedisServerDetector.java:64-67 | closing leaves the connection closed |
| ConnectionPool.RedisConnectionPool.constructor | src/main/java/com/github/armedis/redis/command/RedisCommandExecutor.java:25 | a new pool has lent nothing out |
| ConnectionPool.PooledConnection.Send | src/main/java/com/github/armedis/redis/command/RedisCommandExecutor.java:89 | a command sent on a connection is recorded after the earlier ones |
| ConnectionPool.RedisConnectionPool.GetClusterConnection | src/main/java/com/github/armedis/redis/command/RedisCommandExecutor.java:86 | a fresh cluster connection is lent while the segment has room, so one more is lent out; an exhausted segment throws NoSuchElementException |
| ConnectionPool.RedisConnectionPool.GetNonClusterConnection | src/main/java/com/github/armedis/redis/command/RedisCommandExecutor.java:73 | the same for the non-cluster segment |
| ConnectionPool.RedisConnectionPool.ReturnObject | src/main/java/com/github/armedis/http/service/stats/RedisStatInfoBucket.java:75 | a lent connection goes back to its segment; any other throws IllegalStateException |
| CommandExecutor.RouteOf | src/main/java/com/github/armedis/redis/command/RedisCommandExecutor.java:41-69 | a bean lookup that throws lets BeansException out; no bean returns the empty result; STANDALONE and SENTINEL go to the non-cluster path, CLUSTER to the cluster path; everything else throws NotImplemented, or NullPointerException when the topology is null |
| CommandExecutor.RedisCommandExecutor.constructor | src/main/java/com/github/armedis/redis/command/RedisCommandExecutor.java:32-36 | the topology is fixed when the executor is built |
| CommandExecutor.RedisCommandExecutor.Execute | src/main/java/com/github/armedis/redis/command/RedisCommandExecutor.java:38-70 | a failed bean lookup, the empty result and the exceptions borrow nothing and leave the pool unchanged; each path borrows exactly one connection from its own segment, leaves the other segment alone and never gives the connection back |
| CommandExecutor.RedisCommandExecutor.ExecuteNonClusterCommand | src/main/java/com/github/armedis/redis/command/RedisCommandExecutor.java:72-83 | one non-cluster borrow, the runner runs on it, and the connection stays lent out |
| CommandExecutor.RedisCommandExecutor.ExecuteClusterCommand | src/main/java/com/github/armedis/redis/command/RedisCommandExecutor.java:85-98 | one cluster borrow, `decr("")` is sent before the runner runs, and the connection stays lent out |
| CommandExecutor.ExhaustionExample | src/main/java/com/github/armedis/redis/command/RedisCommandExecutor.java:72-83 | with one non-cluster connection, the second request cannot borrow |
| CommandExecutor.RedisCommandExecutor.ExecuteReturning | src/main/java/com/github/armedis/redis/command/RedisCommandExecutor.java:38-98 | the corrected executor: same results, and the pool ends as it started |
| CommandExecutor.ReturningExample | src/main/java/com/github/armedis/redis/command/RedisCommandExecutor.java:72-83 | the corrected executor serves both requests on one connection |
| StatInfoBucket.FifoAdd | src/main/java/com/github/armedis/http/service/stats/RedisStatInfoBucket.java:31 | adding never takes the queue over its capacity, and the added element is the newest |
| StatInfoBucket.FifoAddAll | src/main/java/com/github/armedis/http/service/stats/RedisStatInfoBucket.java:31 | any run of adds keeps the queue within its capacity |
| StatInfoBucket.FifoKeepsLast | src/main/java/com/github/armedis/http/service/stats/RedisStatInfoBucket.java:31 | after any adds the queue holds exactly the 20 most recent elements (all when fewer), oldest first |
| StatInfoBucket.CircularFifoQueue.constructor | src/main/java/com/github/armedis/http/service/stats/RedisStatInfoBucket.java:31 | a new queue of the given capacity is empty |
| StatInfoBucket.CircularFifoQueue.Slot | src/main/java/com/github/armedis/http/service/stats/RedisStatInfoBucket.java:31 | the slot of an element lies inside the buffer |
| StatInfoBucket.CircularFifoQueue.Contents | src/main/java/com/github/armedis/http/service/stats/RedisStatInfoBucket.java:31 | the contents are the stored elements read from the head round the buffer |
| StatInfoBucket.CircularFifoQueue.Poll | src/main/java/com/github/armedis/http/service/stats/RedisStatInfoBucket.java:34 | removes and gives the oldest element; an empty queue gives nothing and stays empty |
| StatInfoBucket.CircularFifoQueue.Add | src/main/java/com/github/armedis/http/service/stats/RedisStatInfoBucket.java:31 | appends at the newest end, evicting the oldest when full |
| StatInfoBucket.RedisStatInfoBucket.constructor | src/main/java/com/github/armedis/http/service/stats/RedisStatInfoBucket.java:31 | the history starts empty with capacity 20 |
| StatInfoBucket.RedisStatInfoBucket.GetStats | src/main/java/com/github/armedis/http/service/stats/RedisStatInfoBucket.java:33-37 | drops the oldest entry if there is one, leaves an empty queue unchanged, keeps at most 20 entries, and gives null |
| StatInfoBucket.RedisStatInfoBucket.GetClusterNodesCommandResult | src/main/java/com/github/armedis/http/service/stats/RedisStatInfoBucket.java:96-108 | every failure gives null; a failing command leaves one more connection lent out; a reply gives the text and returns the connection |
| StatInfoBucket.RedisStatInfoBucket.Start | src/main/java/com/github/armedis/http/service/stats/RedisStatInfoBucket.java:61-62 | the node text is fetched once, when the thread starts; the cluster connections lent out stay as they were when the segment is exhausted or the command replies, and grow by exactly one when the command fails |
| StatInfoBucket.RedisStatInfoBucket.ConvertToNodeInfoList | src/main/java/com/github/armedis/http/service/stats/RedisStatInfoBucket.java:110-125 | exactly one node info per line, in line order; null text throws NullPointerException |
| StatInfoBucket.NodeStep | src/main/java/com/github/armedis/http/service/stats/RedisStatInfoBucket.java:68-84 | a node reports its INFO exactly when the segment has room and the node replies; at most one connection is leaked per node |
| StatInfoBucket.PollNodes | src/main/java/com/github/armedis/http/service/stats/RedisStatInfoBucket.java:67-85 | a pass gives exactly one outcome per node and never lends fewer connections than before |
| StatInfoBucket.PollStep | src/main/java/com/github/armedis/http/service/stats/RedisStatInfoBucket.java:67-85 | one more node adds its own outcome after the earlier ones |
| StatInfoBucket.PollAppend | src/main/java/com/github/armedis/http/service/stats/RedisStatInfoBucket.java:67-85 | a failure on a node is caught: the later nodes are still polled, in list order, from where the earlier ones left the pool |
| StatInfoBucket.PollAt | src/main/java/com/github/armedis/http/service/stats/RedisStatInfoBucket.java:67-85 | the k-th outcome is node k's own step |
| StatInfoBucket.PollBounded | src/main/java/com/github/armedis/http/service/stats/RedisStatInfoBucket.java:67-85 | a pass never lends more connections than the segment holds |
| StatInfoBucket.PollAllReplied | src/main/java/com/github/armedis/http/service/stats/RedisStatInfoBucket.java:67-85 | when every node replies, every node's INFO is reported in order and every connection is given back |
| StatInfoBucket.PollExhausted | src/main/java/com/github/armedis/http/service/stats/RedisStatInfoBucket.java:69-84 | once leaks have used up the segment, every node reports NoSuchElementException |
| StatInfoBucket.Ids | src/main/java/com/github/armedis/http/service/stats/RedisStatInfoBucket.java:72 | the ids of the node list, in order |
| StatInfoBucket.RedisStatInfoBucket.PollNode | src/main/java/com/github/armedis/http/service/stats/RedisStatInfoBucket.java:68-84 | one node's try block does what `NodeStep` says; the borrowed connection is returned only after a reply |
| StatInfoBucket.RedisStatInfoBucket.Pass | src/main/java/com/github/armedis/http/service/stats/RedisStatInfoBucket.java:64-85 | one iteration converts the text fetched at start (null throws NullPointerException before any node is polled) and polls every node in list order as `PollNodes` says; no connection already lent out is given back |

## Findings

| source | as written | input that shows it | evidently intended | confidence | as-written member | corrected member |
|---|---|---|---|---|---|---|
| src/main/java/com/github/armedis/redis/command/RedisCommandExecutor.java:72-98 | neither path gives its borrowed connection back to the pool | two requests on a standalone store with one pooled connection: the second cannot borrow | the connection goes back to the pool when the command is done | medium, not executed; the pool's own code is not part of this model | CommandExecutor.ExhaustionExample | CommandExecutor.RedisCommandExecutor.ExecuteReturning |

## Left out

- Lettuce connections and commands (`connect`, `info()`, `role()`, `clusterInfo()`, `clusterNodes()`, `getConnection(id)`, `decr`, a runner's `run`) are not modelled as a wire protocol. Each becomes a parameter holding its outcome: success, reply text or exception.
- The Spring container: `getBean` becomes the `Bean` parameter of `Execute`. Its outcome is a runner, another bean, null, or an exception, which the model names BeansException whatever its subclass. `RedisCommandRunner.getCommandRunnerName` is not part of this model.
- `RedisServerInfoMaker` becomes the topology passed to the executor's constructor. It may be null, because the detector leaves the type unassigned when no `redis_mode` line exists.
- `RedisInfoConverter.setField` is not part of this model. It is replaced by an assumed table: `keys`, `expires` and `avgTtl` take `Integer.parseInt` of the value, and any other name is ignored.
- Guava `CaseFormat` is modelled for ASCII letters only.
- `RedisInstanceType.of` is not part of this model. An exact-match table on `standalone`, `sentinel` and `cluster` stands for it.
- `RedisLookupFactory` and the lookup strategies become one `lookup` function from a type to the servers or an exception.
- `RedisNode` equality is assumed to be equality of host and port.
- A `HashSet`'s iteration order is taken to be the order in which the nodes were added.
- `RedisClusterNodeInfoConverter.convert` is not part of this model. It is a function parameter, assumed total.
- `RedisConnectionPool` is not part of this model. An exhausted segment is assumed to throw NoSuchElementException rather than block.
- Integer.parseInt accepts ASCII digits only; other Unicode digits are not modelled.
- `requireNonNull` in the detector's constructor is left out: the seed string is a Dafny string, never null.
- The NullPointerException of `Keyspace.convert(null)` is left out: `content` is a Dafny string, never null.
- `getRedisInstanceType` is not modelled as a separate member. It reads the `redisInstanceType` field, whose value every method states.
- The monitor thread's `while(true)` loop, its executor wiring, the one-second `poll` sleep and `InterruptedException` are concurrency and timing. One iteration is modelled, as `Pass`.
- Logging, `System.out.println` and `printStackTrace` are left out as I/O. The per-node outcomes of `Pass` stand for what is printed.
- The `IOException` handler of `convertToNodeInfoList` is left out: reading from a `StringReader` cannot throw it.
- The commands a node connection receives are recorded on the cluster connection that resolved it.
- Both `RedisGetService` classes are HTTP glue and are not part of this model.
- The connection a `SeedConnection` wraps and the servers it reaches are not modelled beyond its open/closed state.
