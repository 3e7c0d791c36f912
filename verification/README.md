# Verified model of a Redis-backed stream relay

This project models the core of a real-time messaging relay written in Go and proves what its
seven stateful components guarantee. Each component is modelled in the form the Go code has
(a class with the same fields and methods, a loop with the same variables, or a step system where
goroutines interleave) and is proved equal to a simple specification; theorems about whole runs
are then proved about that specification.

| files | component | what it is proved against |
|---|---|---|
| `Dedupe`, `DedupeCache`, `Cluster` | deduplication cache, broker, cluster of nodes | a query over the whole log of accepted IDs; a step system of nodes |
| `Wildcard`, `MatchPattern`, `Permissions` | channel patterns and permissions | the declarative meaning of `*`; a set of (user, role) pairs |
| `Decimal`, `Resp`, `RespCodec` | RESP2 reader and writer | the protocol's concrete syntax |
| `Messages`, `StreamEntries` | stream entries and messages over RESP | round trips through the bytes |
| `Pool`, `Subscription` | Redis connection pool, and what a subscription reads from | every interleaving of Get, Put and Close |
| `Recovery`, `RecoveryRuns`, `RecoveryOverlap` | offset-based recovery | positions in a stream that only grows, with faults anywhere, one call at a time or overlapping |
| `RingBuffer`, `MemoryRelay`, `MessageIds` | in-memory history | the unbounded log of what was persisted |
| `Room`, `Broadcast` | room membership, concurrent fan-out | membership as a value; one delivery per subscriber under any schedule |

`dafny verify dfyconfig.toml` verifies everything.

## Reading the model

- A Go string is a `string` with one character for each byte. Channel patterns, where the code
  converts bytes to runes, use `Bytes`, whose characters are below 256.
- Clocks, dial results, the answers of subscribers, the replies of the network and the order a Go
  map is ranged over are parameters, or are chosen freely. `IsDuplicate` reads the clock twice when
  it accepts, and so has two time parameters.
- A permission mask is the set of the positions of its one bits, so `&` and `|` are intersection
  and union.
- JSON is a pair of function parameters, `marshal` and `unmarshal`; a theorem that needs them to be
  inverse on some metadata says so.
- Some classes carry ghost fields with what happened so far (`calls`, `steps`, `ops`, `log`, `ever`).
  The code has no such fields; `Valid()` ties them to the real ones.

## Where the code does less than one would expect

Each of these is proved, with the exact condition under which the expected property holds.

- An error reply from Redis is no error to the caller of `Do`. `RedisBroker.Publish` then reports
  success without trying again: a success was published exactly when the last reply was no error or
  an earlier attempt got through (`Cluster.SuccessWasPublishedIff`). `SaveOffset` likewise reports
  success with the key unset.
- The cluster tells messages apart by their IDs alone, which are given out room by room, and are empty
  for messages that are not persisted. Some run drops a remote message as a duplicate that was never
  accepted, exactly when a node is sent two different remote messages with one ID
  (`Cluster.AllAcceptedIffDistinguishable`).
- `ReadPubSubMessage` takes a connection from the pool and keeps it, whichever it is. When PSUBSCRIBE
  and the reads run one after another, with nobody else using the pool, only one read gets the
  connection that subscribed: that whose number is that of the connections that were idle, or the
  first if none was (`Subscriptions.ReadGetsSubscribedIff`). In a new pool the first read is on it
  exactly when `MinIdleConns`, 2 unless set, is at most 1 (`Subscriptions.FirstReadIsSubscribedIff`).
- `matchPattern` places every literal at its first occurrence and never goes back, so `a*b` rejects
  `abb`; and a byte of 128 or more after the first `*` is looked for as a two-byte rune. It agrees
  with the wildcard relation on all channels exactly for patterns without `*` and for patterns that
  end in `*` and are ASCII from the first `*` on (`Wildcard.MatchesAgreesIffFaithful`).
- A pool slot whose dial failed, or whose connection is dead when it is put, is never given back. A `Get`
  can be served, now or later, exactly while some slot is neither lost nor with the holder of a dead
  connection (`Pool.GetCanSucceedIffSlotRemains`). `PoolSize` failed dials, in any run,
  end the pool (`Pool.FailedDialsExhaust`), and so does one dead borrower in a pool of one
  (`Pool.BrokenBorrowerBlocks`).
- Closing a pool can panic: exactly when, as `closed` is set, some `Get` or `Put` has looked at it and
  is still to use the channel, or more `Get`s are past the channel than slots remain
  (`Pool.CloseCanPanicIffRacing`).
- The stored recovery offset can move back: exactly when delivery starts more than the limit before it
  and nothing fails while fetching, delivering and saving (`RecoveryRuns.OffsetMovesBackIff`).
  Delivery starts that early when the offset could not be read, or, without any fault, when the
  caller's `FromID` says so (`RecoveryRuns.EarlyFromIDMovesBack`). When calls for one user overlap, a
  save moves it back exactly when that call's block ends before the offset as it is by then
  (`RecoveryOverlaps.SaveMovesBackIff`), which takes neither a fault nor a `FromID`.
- Recovery skips messages exactly when some call's `FromID` lies beyond what was delivered, with
  entries after it, and the call delivers one (`RecoveryRuns.NothingIsSkipped`,
  `RecoveryRuns.JumpSkips`). Calls without a `FromID` never skip, whatever fails.
- Two users share an offset key in some pair of rooms exactly when one's ID is ":" followed by the
  other's ID at its end (`RecoveryRuns.OffsetKeysCollideIff`).
- `CompareMessageIDs` falls back to comparing strings when one ID is malformed. On a set of IDs it is
  transitive exactly when the malformed ones lie between the others consistently
  (`MessageIds.TransitiveIffAgreed`); 9-1 < 10-1 < 5 < 9-1 is a cycle (`MessageIds.MixedIdsCycle`).
- Subscribing a subscriber object that is closed or was added before leaves a closed subscriber filed;
  the room stays in step exactly when the object is open and new (`Rooms.SubscribeKeepsStepIffNew`).
- A client of the in-memory relay that falls behind by the history size or more recovers nothing,
  rather than what is still held (`MemoryRelays.FallingBehindRecoversNothing`).

## Model

| member | source | states |
|---|---|---|
| DedupeCaches.DedupeCache.constructor | engine/broker.go:61-75 | an empty cache; zero and negative settings become 10000 entries and five minutes |
| DedupeCaches.DedupeCache.IsDuplicate | engine/broker.go:78-111 | the answer and the new contents; while the clock has not gone back, the answer is true exactly when the log of accepts has an accept of the ID younger than ttl with fewer than maxSize accepts after it |
| DedupeCaches.DedupeCache.Look | engine/broker.go:78-111 | the code of IsDuplicate on the three structures equals the cache step on the ordered list of (ID, time) |
| DedupeCaches.DedupeCache.EvictOverSize | engine/broker.go:100-108 | the eviction loop keeps exactly the newest maxSize entries, in order, in all three structures |
| DedupeCaches.DedupeCache.Forget | engine/broker.go:104-106 | removing a list element and both map entries filters exactly that ID out and keeps the three structures in step |
| DedupeCaches.DedupeCache.Cleanup | engine/broker.go:114-128 | ranging over the map in any order removes exactly the entries older than ttl |
| DedupeCaches.RemoveIsWithout | engine/broker.go:53-56 | with no repeated ID in the list, removing one element is filtering its ID out |
| Dedupe.CacheRefinesLog | engine/broker.go:78-128 | after any run of checks and cleanups with a clock that never goes back, the cache answers as the whole log does |
| Dedupe.CallKeepsCoupling | engine/broker.go:78-128 | each call keeps the cache equal to some stale entries followed by the fresh end of the log, with every earlier accept stale or pushed out by maxSize later ones |
| Dedupe.CacheIsOrdered | engine/broker.go:61-128 | in every reachable cache times never decrease from front to back and there are at most maxSize entries |
| Dedupe.SweepDropsPrefix | engine/broker.go:114-128 | Cleanup removes exactly a prefix of the order, the entries older than ttl |
| Dedupe.AcceptedIsKept | engine/broker.go:95-108 | eviction never removes the ID just added, which is at the back, and invents nothing |
| Dedupe.AcceptsAreSpaced | engine/broker.go:78-111 | two accepts of one ID are ttl apart or have at least maxSize accepts between them |
| Cluster.RedisBroker.Publish | engine/broker.go:249-287 | the retry loop: the first attempt that is answered or cancelled decides, or all maxRetries are made; how many copies reached the server |
| Cluster.OutcomeIsUnique | engine/broker.go:266-286 | the attempts determine how many are made and what is reported |
| Cluster.SuccessWasPublishedIff | engine/broker.go:269-272 | a reported success was published exactly when the last reply was no error or an earlier attempt got through |
| Cluster.ErrorReplyIsReportedSuccess | engine/broker.go:269-272 | an error reply to the first attempt: success is reported, nothing is tried again and nothing was published |
| Cluster.RedisBroker.Receive | engine/broker.go:385-425 | a message is forwarded exactly when it is a readable pmessage, not an echo, not a duplicate and the channel has room; what is forwarded has its channel, data, node ID and message ID; the cache changes only for readable remote messages |
| Cluster.StepKeepsInv | engine/broker.go:385-425 | every publish, arrival, cleanup and consumption keeps the coupling of each cache with its log, the spacing of accepts, the trace of forwards and the count of copies |
| Cluster.NoEcho | engine/broker.go:400-402 | over any run, no node forwards a message carrying its own node ID |
| Cluster.NoEarlyRepeat | engine/broker.go:385-425 | over any run, a node forwards the same ID twice only if ttl elapsed or at least maxSize accepts happened in between |
| Cluster.ForwardsWerePublished | engine/broker.go:249-287 | copies on the wire and received are together exactly those published, and forwards are among those received |
| Cluster.ArrivalsWereHeard | engine/broker.go:411-413 | every remote message that arrived shares its ID with one that was accepted, and only remote messages published to the node are accepted |
| Cluster.ArrivalsWereAccepted | engine/broker.go:411-413 | when no node is sent two different remote messages with one ID, every remote message that arrived was itself accepted |
| Cluster.AllAcceptedIffDistinguishable | engine/broker.go:411-413 | whatever the copies published: some run loses a remote message that arrives exactly when a node is sent two different remote messages with one ID |
| Cluster.FullChannelsOnlyDrop | engine/broker.go:416-425 | against the same run with channels that cannot fill, full channels change no cache and no log and only remove forwards |
| Wildcard.PlaceIsLeftmost | engine/permissions.go:270-318 | exchange argument: wherever a match ends, leftmost placement of the literals ends no later |
| Wildcard.PlaceIsShortest | engine/permissions.go:270-318 | leftmost placement finds the shortest matching prefix, and fails only when no prefix matches |
| Wildcard.MatchesMeans | engine/permissions.go:270-318 | for every pattern and channel, the answer in terms of the wildcard relation: a match, and for patterns not ending in `*` no shorter prefix of the channel matches |
| Wildcard.MatchesIsSound | engine/permissions.go:270-318 | whatever an ASCII pattern accepts, the wildcard relation accepts |
| Wildcard.MatchesAgreesIffFaithful | engine/permissions.go:270-318 | agreement with the wildcard relation on all channels holds exactly for star-free patterns and for patterns that end in `*` with only ASCII after the first `*` |
| Wildcard.UnfaithfulMisses | engine/permissions.go:286-303 | for every other pattern, a channel it should match and rejects |
| Wildcard.CommonPatterns | engine/permissions.go:268-318 | a pattern without `*` matches itself alone, and one whose only `*` is at its end exactly what begins with the rest of it |
| MatchPatterns.MatchPattern | engine/permissions.go:270-318 | the nested greedy loops terminate and answer as leftmost placement does, for all byte strings |
| MatchPatterns.CollectLiteral | engine/permissions.go:286-290 | the literal collected is the pattern up to the next `*`, each byte as a rune |
| MatchPatterns.SearchLiteral | engine/permissions.go:292-300 | the search stops just past the literal's first place, or fails when it has none |
| Permissions.DefaultPermissionChecker.AddRule | engine/permissions.go:129-131 | a rule added last decides only channels that no earlier rule matches |
| Permissions.DefaultPermissionChecker.FindRule | engine/permissions.go:259-266 | the first matching rule, or the default |
| Permissions.FirstRuleSkips | engine/permissions.go:259-266 | the rule found is the first that matches, and the default only when none does |
| Permissions.DefaultPermissionChecker.SetUserPermission | engine/permissions.go:144-149 | the override becomes the user's permission on that channel, and no other permission changes |
| Permissions.DefaultPermissionChecker.RemoveUserPermission | engine/permissions.go:152-156 | the override is gone, and nobody else's permission changes |
| Permissions.DefaultPermissionChecker.AssignRole | engine/permissions.go:164-166 | the user's role list grows by one |
| Permissions.DefaultPermissionChecker.RemoveRole | engine/permissions.go:169-178 | every entry of the role leaves the user's list, and no other |
| Permissions.GrantedFlags | engine/permissions.go:202-206 | a flag is granted exactly when the rule or some role held grants it |
| Permissions.GrantDependsOnHeld | engine/permissions.go:237-241 | the order and multiplicity of roles make no difference |
| Permissions.ListsHoldThePairs | engine/permissions.go:164-178 | over any run of assigning and removing, the lists hold exactly the pairs of the reference set |
| Permissions.HistoryDoesNotMatter | engine/permissions.go:164-251 | two histories that leave a user the same roles leave the same permissions |
| Permissions.DefaultPermissionChecker.CheckSubscribe | engine/permissions.go:190-220 | which error when; on success the result is the effective permission, and it has the subscribe bit |
| Permissions.DefaultPermissionChecker.GetUserPermissions | engine/permissions.go:232-251 | the user's override alone; without one, a flag is in the answer exactly when the rule found or a role the user has grants it |
| Permissions.DefaultPermissionChecker.CheckPublish | engine/permissions.go:223-229 | publish is allowed exactly when the effective permission has the publish bit |
| Decimal.ParseFormat | redis/resp.go:226-236 | reading what was printed gives back any 64-bit integer, and fails for any other |
| Decimal.FormatDigits | redis/resp.go:147-153 | a numeral is the decimal digits, digit by digit, without leading zeros, with a minus sign for a negative number |
| Decimal.ParsesIff | redis/resp.go:231-234 | what is read as an integer is a sign or none and digits that spell a 64-bit number, and nothing else |
| Resp.FrameParses | redis/resp.go:171-298 | completeness: every legal frame, however its numerals are spelled and whatever follows, reads as its meaning, and exactly the rest stays unread |
| Resp.ParsedFrame | redis/resp.go:171-298 | soundness: whatever is accepted was a legal frame at the front of the input |
| Resp.CutFrame | redis/resp.go:171-298 | a legal frame cut short anywhere reads as an end of input, never as a value |
| Resp.LineReads | redis/resp.go:195-236 | byte by byte: simple strings, errors and integers, and lines that should be numerals and are not |
| Resp.LengthReads | redis/resp.go:239-284 | the two nulls, lengths that panic, and bulk strings that end too soon |
| Resp.BulkReads | redis/resp.go:255-267 | the bytes of a bulk string may be any; the two after them must be a CRLF |
| Resp.ArrayReads | redis/resp.go:287-297 | the elements are read one after another until one fails |
| Resp.OthersAreRefused | redis/resp.go:173-205 | no input, a type byte of no form, a line that does not end, and one that ends in a newline alone |
| RespCodec.RoundTrip | redis/resp.go:144-298 | any value tree, null bulk strings and null arrays included, encoded and followed by anything, reads back with exactly that left |
| RespCodec.SequenceRoundTrip | redis/resp.go:171-192 | values written back to back read back one by one |
| RespCodec.ReadingIsLocal | redis/resp.go:171-298 | a successful read depends on the bytes it consumed, all of them and no others |
| RespCodec.AcceptedMessagesArePrefixFree | redis/resp.go:171-298 | no accepted message is a proper prefix of another |
| RespCodec.ThreeBytesPerNode | redis/resp.go:171-298 | reading consumes at least three bytes for each node of the tree it returns |
| RespCodec.ReadableIffEncodable | redis/resp.go:171-298 | the values reading can return are exactly those the encoding can carry |
| RespCodec.Writer.WriteCommand | redis/resp.go:144-158 | the bytes written, whatever follows them, read as an array with each argument, in its place, as a bulk string |
| RespCodec.CommandReadsBack | redis/resp.go:144-158 | the same of the bytes of a command as a function of its arguments |
| RespCodec.CommandsReadBack | redis/resp.go:144-158 | commands written back to back read back in order and apart, argument by argument, for any bytes |
| RespCodec.Reader.ReadValue | redis/resp.go:171-192 | the stream-consuming reader returns, fails and leaves unread exactly as the parser says, for every input |
| RespCodec.Reader.ReadLine | redis/resp.go:195-205 | a line ends at the first newline, which a carriage return must precede |
| RespCodec.Reader.ReadSimpleString | redis/resp.go:208-214 | a simple string is one line |
| RespCodec.Reader.ReadError | redis/resp.go:217-223 | an error is one line |
| RespCodec.Reader.ReadInteger | redis/resp.go:226-236 | an integer is a line that strconv reads as a 64-bit integer |
| RespCodec.Reader.ReadBulkString | redis/resp.go:239-268 | the length, the bytes and the closing CRLF; -1 is null; other negative or overflowing lengths are a fault |
| RespCodec.Reader.ReadArray | redis/resp.go:271-298 | the elements in order, stopping at the first failure |
| StreamEntries.AsMap | redis/resp.go:109-130 | pairs in order, a later key overriding; which error, in order |
| StreamEntries.OneMorePair | redis/resp.go:117-128 | one more pair overrides its key, unless it, or a value before it, is no string: the first such decides |
| StreamEntries.XAddArgs | redis/stream.go:58-62 | the command, the key and the ID, then each field once, its value after it, in some order |
| StreamEntries.FlattenAt | redis/stream.go:59-61 | place by place: each field of the order and right after it its value |
| StreamEntries.ParseEntries | redis/stream.go:431-447 | all entries, or the error of the first malformed one |
| StreamEntries.FirstErrorDecides | redis/stream.go:431-447 | the first malformed entry decides the error, whatever follows it |
| StreamEntries.EntriesInOrder | redis/stream.go:437-446 | there is an answer exactly when every entry parses, and it has each in its place |
| StreamEntries.EntryReadsBack | redis/stream.go:450-470 | for every order of the map, the entry parses back to the same ID and the same map |
| StreamEntries.EntriesSurviveTheWire | redis/stream.go:180-195 | a whole reply, as bytes followed by anything, yields the entries that were added, in order |
| StreamEntries.MessageSurvivesTheWire | engine/relay.go:239-312 | a message survives publishing, the bytes of the reply and parsing, its time cut to milliseconds |
| Messages.ParseStreamEntry | engine/relay.go:287-312 | the message built field by field; missing and malformed fields leave zero values |
| Messages.MessageReadsBack | engine/relay.go:239-312 | the stored fields read back as the message, less than a millisecond earlier |
| Pool.StepKeepsInv | redis/client.go:199-269 | every phase of Get and Put keeps the account of slots, and each connection in one place |
| Pool.ConnectionsAreBounded | redis/client.go:199-269 | under every interleaving idle, held and being-dialed connections and lost slots add up to created, which is at most PoolSize |
| Pool.OneHolder | redis/client.go:199-269 | no connection has two holders, is idle and held at once, or is idle twice |
| Pool.PutNeverFindsPoolFull | redis/client.go:260-268 | the pool-full branch of Put is unreachable: the channel has room for whoever is about to send, and takes the connection unless it was closed |
| Pool.CountersNeverDecrease | redis/client.go:199-269 | created never decreases, and a lost slot stays lost |
| Pool.NoConnectionLeaks | redis/client.go:199-286 | in any run in which nothing panics, every connection made is closed or dead, in the channel or with a thread; so a pool that is drained and whose threads are done leaves none open |
| Pool.StepKeepsPlaced | redis/client.go:199-286 | no step but a panicking one drops a connection that is open |
| Pool.ClosedPoolIsLeftAlone | redis/client.go:272-286 | once the pool is closed with no thread racing, the channel is never used again by a thread and nothing panics |
| Pool.CloseCanPanicIffRacing | redis/client.go:272-286 | for every state in which closed is set, whether the channel is closed yet or not: a send on the closed channel, or a receive of the nil it gives, panics in some run exactly when a thread is past the check of closed and before the channel, or more threads seek a slot than remain |
| Pool.ExhaustedForGood | redis/client.go:219-237 | when every slot is lost no Get is ever served again |
| Pool.StepKeepsSpent | redis/client.go:199-269 | the slots lost or with the holder of a dead connection never become fewer |
| Pool.NeverServed | redis/client.go:199-238 | when every slot is spent like that, a thread without one never gets one |
| Pool.GetCanSucceedIffSlotRemains | redis/client.go:199-238 | in every reachable open state, whatever the other threads are doing, a thread that asks can be served, now or later, exactly while lost slots and dead borrowed connections together are fewer than PoolSize |
| Pool.BrokenBorrowerBlocks | redis/client.go:394-396 | a pool of one with nothing lost serves nobody else once its borrower's connection has died |
| Pool.FailedDialsAreLost | redis/client.go:219-243 | in any run, each failed dial loses a slot |
| Pool.FailedDialsExhaust | redis/client.go:219-243 | after PoolSize failed dials, in any run, nobody has a connection and nobody ever gets one again |
| Pool.FailingGetsFail | redis/client.go:199-243 | for example n Gets in a row on an empty pool, whose steps are given: n dials fail and n slots are lost |
| Subscriptions.Reads | redis/client.go:346-357 | reads one after another, which put nothing back, empty the queue from the front in their order and then dial |
| Subscriptions.LoopRuns | engine/broker.go:348-381 | PSUBSCRIBE and then n reads, one after another, whose steps are given, can be made while slots last |
| Subscriptions.ReadGetsSubscribedIff | engine/broker.go:348-381 | wherever those steps lead: the read to get the connection PSUBSCRIBE ran on is that with the number of idle connections there were, or the first; no other read gets it |
| Subscriptions.FirstReadIsSubscribedIff | engine/broker.go:348-381 | in a new pool the first read, which does not return until its connection receives something, is on the connection that subscribed exactly when at most one was idle |
| Pool.ConnPool.constructor | redis/client.go:174-196 | the idle connections made, all distinct and open; closed exactly when one of the dials tried failed |
| Pool.ConnPool.TryReceive | redis/client.go:208-217 | the non-blocking receive is the step system's |
| Pool.ConnPool.ReserveSlot | redis/client.go:220-226 | the check and increment under the lock are the step system's |
| Pool.ConnPool.TrySend | redis/client.go:260-268 | the non-blocking send is the step system's; the connection is closed exactly when it was not taken |
| Pool.ConnPool.Close | redis/client.go:272-286 | closing drains the channel and closes every connection in it; a second call does nothing |
| Recovery.Relay.PublishToStream | engine/relay.go:239-259 | the entry joins this room's stream and no other's; recovery would read the message back |
| Recovery.Relay.SaveOffset | engine/relay.go:409-412 | the key of this room and user, and no other, is set or not as the server did; success is reported for every reply, an error reply included |
| Recovery.Relay.RecoverMessages | engine/relay.go:344-383 | the messages of exactly the stretch of the stream that was asked for |
| Recovery.Relay.RecoverAndDeliver | engine/relay.go:386-406 | for every combination of faults: what is delivered, in order, what is stored afterwards and whether it succeeds |
| Recovery.PrintedIdReadsBack | redis/stream.go:180-195 | the IDs a Redis server generates meet what the theorems ask of an ID |
| RecoveryRuns.RangeFromOrigin | engine/relay.go:349-371 | what the server is asked for, for every FromID: from the beginning, after the stored offset, or after the entries up to FromID |
| RecoveryRuns.RoundMeans | engine/relay.go:344-406 | a call that gets its entries, for every FromID, limit and fault: where delivery starts and ends, what is stored, whether it succeeds |
| RecoveryRuns.RoundFails | engine/relay.go:373-376 | a call that does not get them delivers and stores nothing, and fails |
| RecoveryRuns.RoundByPosition | engine/relay.go:344-406 | the round on ID texts is the round on positions, for every FromID and every combination of faults: what is delivered, where the offset goes, whether it succeeds |
| RecoveryRuns.RoundFromEntry | engine/relay.go:344-406 | with FromID naming an entry, delivery starts right after that entry, and the offset goes to where the delivery ends, wherever it was before |
| RecoveryRuns.OffsetMovesBackIff | engine/relay.go:344-406 | for one call by itself and every FromID, the exact condition under which the stored offset moves back |
| RecoveryRuns.EarlyFromIDMovesBack | engine/relay.go:344-406 | without any fault, a FromID naming an entry more than the limit before the offset moves the offset back to where delivery ends |
| RecoveryRuns.FromIDMovesBack | engine/relay.go:344-406 | for example, read as Redis does, from the third of the IDs 1-0, 2-0 and 3-0 to the second |
| RecoveryRuns.NothingIsSkipped | engine/relay.go:344-406 | over any run of appends and calls, with any FromIDs and failures anywhere, the offset stays within what was delivered, and a gap is skipped exactly when some FromID jumps beyond it |
| RecoveryRuns.PlainCallsNeverJump | engine/relay.go:349-371 | calls without a FromID, or with one that means the beginning, never skip anything |
| RecoveryRuns.JumpSkips | engine/relay.go:344-406 | a FromID that jumps leaves an entry undelivered before one that is delivered |
| RecoveryRuns.JumpsPast | engine/relay.go:344-406 | for example, in a stream of three, a first call from the second entry jumps |
| RecoveryRuns.NoGapMeansPrefix | engine/relay.go:386-406 | nothing above the high-water mark was delivered, and without gaps everything below it was |
| RecoveryRuns.DeliveredUpToOffset | engine/relay.go:344-424 | unless some FromID jumped, every entry up to the stored offset was delivered at least once, and nothing is missing before a delivered one |
| RecoveryRuns.CallsDrainTheStream | engine/relay.go:344-406 | without faults, n entries with limit L drain in exactly n/L rounds, rounded up, of abutting stretches, then nothing more is delivered |
| RecoveryOverlaps.StepKeepsInv | engine/relay.go:344-406 | reading the offset, fetching, delivering a message and saving, by any of several calls, keep what was delivered a prefix of the stream with the offset in it, unless the step jumps |
| RecoveryOverlaps.AloneIsRecover | engine/relay.go:386-406 | the steps of a call, with nothing in between, deliver and store what the call by itself does |
| RecoveryOverlaps.DeliveredByOverlap | engine/relay.go:344-424 | however calls, with any FromIDs, and publishers interleave, and whatever fails: unless one jumps, the entries delivered are exactly the first so many, and the offset is among them |
| RecoveryOverlaps.NothingIsSkippedByOverlap | engine/relay.go:344-406 | a gap is left at some time exactly when some call delivers its first message while one before it in the stream is undelivered |
| RecoveryOverlaps.PlainOverlapNeverJumps | engine/relay.go:349-371 | calls without a FromID, or with one that means the beginning, never do, however they overlap |
| RecoveryOverlaps.SaveMovesBackIff | engine/relay.go:401-403 | in every reachable state, a save moves the offset back exactly when the call's block ends before the offset as it then is |
| RecoveryOverlaps.OffsetHasPlace | engine/relay.go:344-424 | in every reachable state the offset stands for a place in the stream, and what each call fetched is a stretch of it |
| RecoveryOverlaps.OverlapMovesBack | engine/relay.go:386-406 | two overlapping calls, every step of which is without a fault and without a FromID, that move the offset back |
| RecoveryRuns.OffsetKeysCollideIff | engine/relay.go:101-103 | exactly which users can share an offset key |
| RingBuffers.RingBuffer.constructor | engine/memory_relay.go:56-64 | an empty buffer; sizes up to 0 become 100 |
| RingBuffers.RingBuffer.Add | engine/memory_relay.go:67-76 | the log grows by one, and every index stays in range |
| RingBuffers.HoldsOneMore | engine/memory_relay.go:67-76 | writing at the head and moving it on keeps the slots holding the last entries of the log, oldest first |
| RingBuffers.RingBuffer.GetAll | engine/memory_relay.go:79-93 | the last size entries of the log, oldest first, without nils |
| RingBuffers.RingBuffer.GetSince | engine/memory_relay.go:96-109 | what follows the first message with the given ID, among those held |
| RingBuffers.SinceMeans | engine/memory_relay.go:96-109 | everything for no ID, "0" and "-"; what follows the first message with the ID; nothing for an ID not held |
| RingBuffers.RingBuffer.GetLast | engine/memory_relay.go:112-118 | the last n of those |
| RingBuffers.HeldMessages | engine/memory_relay.go:79-93 | when no nil was added, what is held is the last size messages of the log |
| RingBuffers.PresentOf | engine/memory_relay.go:86-91 | entry by entry, a nil gives nothing and a message itself |
| MemoryRelays.MemoryRelay.CreateRoom | engine/memory_relay.go:180-204 | a room with an empty history of its own; existing rooms are untouched |
| MemoryRelays.MemoryRelay.Prepare | engine/memory_relay.go:268-283 | the caller's message with the room, the next ID and, where it had none, a time; nothing is stored yet, and the message is pending |
| MemoryRelays.MemoryRelay.Persist | engine/memory_relay.go:285-288 | a pending message, any number of other publishers' steps later, joins its room's history and no other |
| MemoryRelays.MemoryRelay.Publish | engine/memory_relay.go:268-309 | both halves with nothing in between; what is published is the caller's message, field by field |
| MemoryRelays.PendingStaysPending | engine/memory_relay.go:283-288 | no step of another publisher keeps a publisher from storing its message |
| MemoryRelays.StoreMirrors | engine/memory_relay.go:285-288 | storing in any order keeps every history standing for what was stored in its room |
| MemoryRelays.LogHoldsMessages | engine/memory_relay.go:278-288 | every message stored is one published to that room, field by field, with its room, its own ID and a time filled in |
| MemoryRelays.PendingIdIsNew | engine/memory_relay.go:168-172 | the ID of a message about to be stored is in no log yet, whatever the order of storing |
| MemoryRelays.MemoryRelay.RecoverMessages | engine/memory_relay.go:330-353 | what is returned is the reference answer on the unbounded log of what was stored so far |
| MemoryRelays.LogIdsAreDistinct | engine/memory_relay.go:168-172 | over any interleaving of publishers, and whatever the clock says, stored IDs are distinct and none is a sentinel |
| MemoryRelays.RecoverFromHeld | engine/memory_relay.go:330-353 | recovering from an ID still held returns exactly the messages stored after it, or with a positive limit their suffix of that length |
| MemoryRelays.RecoverFromLost | engine/memory_relay.go:330-353 | recovering from an ID that is not held returns nothing |
| MemoryRelays.FallingBehindRecoversNothing | engine/memory_relay.go:330-353 | being behind by size messages or more recovers nothing, however much was missed |
| MemoryRelays.RecoverFromBeginning | engine/memory_relay.go:330-353 | without an ID, the last messages held, as many as the limit allows |
| MessageIds.ParseGenerated | engine/memory_relay.go:671-678 | parsing inverts printing for all 64-bit times and sequences, whatever non-digit follows |
| MessageIds.ParsesIff | engine/memory_relay.go:671-678 | an ID parses exactly when it is two 64-bit numerals with "-" between them, blanks before either and no digit after |
| MessageIds.GeneratedIdsAreDistinct | engine/memory_relay.go:712-714 | printed IDs are injective in time and sequence |
| MessageIds.CompareGenerated | engine/memory_relay.go:682-709 | generated IDs compare as their (time, sequence) pairs, lexicographically |
| MessageIds.CompareMeans | engine/memory_relay.go:682-709 | times first, then sequence numbers; byte by byte when one of the two does not parse |
| MessageIds.CompareMirrors | engine/memory_relay.go:682-709 | swapping the arguments swaps the answer, for all strings |
| MessageIds.CompareEqual | engine/memory_relay.go:682-709 | equal exactly for the same string or the same numbers |
| MessageIds.TransitiveIffAgreed | engine/memory_relay.go:682-709 | on any set of IDs, the exact condition under which the comparison is transitive |
| MessageIds.TransitiveOnAlike | engine/memory_relay.go:682-709 | transitive among IDs that all parse, and among IDs none of which does |
| MessageIds.MixedIdsCycle | engine/memory_relay.go:682-709 | three IDs, one of them malformed, that compare in a cycle |
| Rooms.Room.Subscribe | engine/room.go:50-84 | both maps get the entry, a subscriber it replaces is closed, and the room is what the calls so far made of it |
| Rooms.Room.Unsubscribe | engine/room.go:87-109 | both entries go and the subscriber is closed; nothing happens for an unknown user |
| Rooms.Room.AddMember | engine/room.go:169-178 | the member is added once |
| Rooms.Room.RemoveMember | engine/room.go:181-198 | every entry of the member goes, its subscription with it |
| Rooms.ExceptKeeps | engine/room.go:184-191 | every other member keeps its place |
| Rooms.Room.Close | engine/room.go:462-475 | both maps are emptied and exactly the subscribers in them are closed |
| Rooms.SubscribeKeepsStepIffNew | engine/room.go:50-84 | subscribing keeps the room in step exactly when the subscriber is open and was never added before |
| Rooms.RoomStaysInStep | engine/room.go:50-198 | over any run with an open subscriber of its own for each subscribe: equal keys, each subscriber under its own ID, and of all ever added exactly those in the map open |
| Rooms.Room.IsInStep | engine/room.go:50-198 | the same of the room object after any such calls of its methods |
| Rooms.NoneLeaksOpen | engine/room.go:87-109 | every subscriber ever added is in the map or closed |
| Broadcasts.SafeDeliver | engine/room.go:281-333 | at most three attempts, stopping at the first success or panic; success means exactly one accepted call |
| Broadcasts.DeliveryIsDecided | engine/room.go:281-333 | the result is what the deciding attempt answered, all before it being refusals |
| Broadcasts.RunDelivers | engine/room.go:213-278 | for every schedule of the goroutines, however far it got, the results are as a multiset one per goroutine that finished |
| Broadcasts.RecordedIff | engine/room.go:236-242 | a result is in exactly when its goroutine took a turn for each attempt and one more to append |
| Broadcasts.CompleteRunDelivers | engine/room.go:213-278 | once all finished, the results are one per receiver |
| Broadcasts.FairRunCompletes | engine/room.go:213-278 | four turns for each goroutine finish every delivery |
| Broadcasts.OfflineCount | engine/room.go:262-276 | exactly one Offline result for each member entry that is not skipped and not subscribed |
| Broadcasts.Broadcast | engine/room.go:213-278 | for every schedule, however far it got: one result for each subscriber, other than a skipped sender, that made its attempts and appended; an Offline one for each member entry neither skipped nor subscribed; and no others |

## Left out

- TCP, TLS, timeouts, buffering, backoff sleeps and tickers: the network succeeds or fails freely.
- JSON encoding: an uninterpreted pair of functions; `handleBrokerMessage` only copies decoded fields and broadcasts.
- `engine/protocol.go`, `engine/handler.go`, `engine/namespace.go`, `engine/options.go`, `engine/history.go`, `engine/types.go`, `streamrelay.go`: structs, dispatch, prefixes and setters that would add only easy members.
- `Room.listenLoop`: its blocking cursor depends on what the server does between reads.
- Pool.CloseCanPanicIffRacing: does not model what the rest of the program does when a goroutine panics; the thread stops and its slot is lost.
- Republishing the same `*Message`, and nil messages: messages are values here, so the aliasing of a published pointer is not modelled.
- Stream trimming, deletion and retention during recovery; `DeleteRoom`; `LoadExternalMessages`.
- Broadcasts.Broadcast: goroutines that finish after it has returned, and the asynchronous unsubscribe after a panic, are not modelled.
- Consumer groups, `XInfo`, `XPending`, `XREAD` replies (`parseStreamResults` repeats `parseEntries` one level up), statistics, events and activity times.
- `CheckConnect`, which is a single test; `AsInt` and `AsStringSlice`; rate limits and the other `ChannelRule` fields that no decision reads; `Permission.Remove`.
- Memory use: a RESP length up to the largest 64-bit integer is accepted as the code would try to; allocating it is not modelled.
- MessageIds.ParseMessageID: does not model the non-ASCII white space that Sscanf also skips.
- MemoryRelays.LogIdsAreDistinct: does not model wrap-around of the 64-bit sequence counter; runs have at most that many calls.
- Recovery.Relay.RecoverAndDeliver: the method is one call by itself; its steps, interleaved with those of others, are in `RecoveryOverlaps`.
- Subscriptions.ReadGetsSubscribedIff: read errors, which close the connection and subscribe again, are not modelled.
- Rooms.Room.IsInStep: subscribers are closed by the room alone; one closed by somebody else while filed is not modelled.
- MatchPatterns.MatchPattern: its three inner loops are methods of their own.
