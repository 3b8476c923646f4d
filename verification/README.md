# A Dafny model of the traffic monitor and its client

The repository is a fork of iftop that runs on a box, counts the traffic of every IPv4 connection in a hash
table, drops short and quiet connections, keeps ("approves") the rest for good, and publishes the approved ones
over MQTT as 38-byte records. A Python client unpacks the records and adds them up per box and inner host.
This project models that path from packet to client, the resolver that the box shares between threads, and the
configuration store, and proves the properties below for all inputs and all runs.

Layout, in dependency order:

- `Wrappers`, `Bytes`: an option type; machine words, byte images, `htonl`.
- `HashTable`, `AddrHash`: the pointer-linked chained table with its cursor, and the concrete key functions.
- `NetFilter`, `Packets`, `PacketLaws`: the net filter's mask arithmetic; how a packet becomes a flow key, and what
  that key holds.
- `Flows`, `FlowRuns`, `FlowLaws`: the flow table as a value, its eviction and approval rules, whole runs of packets and
  ticks, and what they do to one flow over time.
- `Report`, `History`, `Mqtt`, `Iftop`: the record format, the per-flow records in place, the MQTT session, and the
  monitor class whose methods change the linked table and are proved to follow the value model.
- `Collector`, `Delivery`, `IpLocator`: the client's merge, the end-to-end statement, and its address lookup.
- `Resolver`, `ResolverQueue`: the interleavings of producers and workers, and the ring and cache in place.
- `StringMap`, `CfgFile`, `Settings`: the search tree changed in place, the configuration file reader, and what a file
  says.
- `HexAddr`: the hexadecimal address printer and parser.

Code that changes things step by step is a class or a method over arrays, proved against a function on values; the
properties are lemmas about these functions. The build that is modelled is the configured i686 one: `long` and
`time_t` have four bytes and words are little-endian.

What the code does not do, with the exact condition under which it does:

- A packet and its reply, seen in opposite hardware directions or both without one, need not be treated alike. Both are dropped, or both reach one flow on opposite sides of it,
  exactly when `Packets.PairingCondition` holds or the protocol, router and port filters stop them both
  (`Packets.ClassifyPairsIff`). The multicast branch can break the numeric order the other way
  (`Packets.MulticastBreaksSymmetry`).
- A flow and `history_totals` can count one packet in different directions (`Packets.DirectionsDisagreeIff`). Between two
  hosts they do exactly when the addresses alone decide and the sender has the larger one as a network-order word; for a
  packet from a host to itself exactly when the net filter is off and neither the hardware nor the interface's own
  address makes it an outgoing one.
- The payload buffers do not balance in every run. Whatever the library does, the raw buffers are those of the pending
  message less one for each fault, a status check that finds a confirmed token with nothing pending; the compressed ones
  are these plus one for each connection loss that finds a message pending (`Mqtt.BuffersInAnyRun`). So the raw buffers
  balance exactly when there is no fault, and both kinds exactly when there is no such loss either
  (`Mqtt.BalanceIffNoFault`). The library's promises exclude faults (`Mqtt.AllowedRunHasNoFault`), and four lemmas show a
  fault without each promise; they do not exclude losses (`Mqtt.LossLeavesCompressedBuffer`).
- Queued resolver work is stranded if it is queued and signalled before any worker first waits. A state is safe for
  ever exactly if some worker has waited and nothing is stranded (`Resolver.NeverStrandedIff`), and from a safe state
  every schedule empties the queue within a bound (`Resolver.EveryScheduleDrains`).
- The resolver cache compares the first 16 bytes of a 24-byte structure, so IPv6 addresses with the same first eight
  bytes are one key (`Resolver.SameKeyIff`). Only the first request for a key can queue it, and does exactly if the ring
  has room and the address is neither link-local nor site-local; otherwise the key is never resolved
  (`Resolver.EverQueuedIff`).
- The boxes report cumulative counters and the client adds every message up. Its figure for a host is the sum over all
  reports since its table was last cleared (`Delivery.ReportedTotals`), and it is the current count of the flows exactly
  if the earlier ones had no bytes for the host (`Delivery.LatestCountIff`).
- The binary search answers wrongly exactly for the addresses of `IpLocator.Misdirected`. There are none exactly if there
  is one range only, or the last range starts at 255.255.255.0 or later and the one before it ends below
  (`IpLocator.NeverMisdirectedIff`).
- A continuation has less room than a line, so a late split loses text. A line that fits the buffer and does not end in a
  backslash is read the same when it is split exactly if every piece, with its backslash and newline, fits the room that
  it is given (`CfgFile.SplitReadsTheSameIff`).
- A numeric prefix above 32 is reported as invalid, but the filter is switched on with the mask that was there before
  (`NetFilter.FilterOptions.GetNetFilter`).

## Model

| member | source | states |
|---|---|---|
| HashTable.InsertedPushes | hash.c:8-26 | inserting pushes the record onto the stack of its key and leaves the stack of every other key alone |
| HashTable.RemovedPops | hash.c:28-59 | deleting pops the stack of its key, and no other |
| HashTable.FirstPeeks | hash.c:61-75 | the first node of a key holds the top of its stack; there is none exactly when the stack is empty |
| HashTable.LayoutInsert | hash.c:17-24 | a node at the head of its bucket keeps the layout: every node in bucket hash(key), buckets disjoint and contiguous, no node twice |
| HashTable.LayoutDelete | hash.c:46-57 | unlinking a node keeps the same layout |
| HashTable.Table.constructor | hash.c:130-133 | the table starts valid and empty |
| HashTable.Table.Insert | hash.c:8-26 | relinking the bucket head is an insertion at the front of the key's bucket; the table stays valid; one node is new |
| HashTable.Table.Find | hash.c:61-75 | succeeds exactly when the key is there and returns its most recent record |
| HashTable.Table.Locate | hash.c:36-44 | finds the first node of the key and its predecessor in the chain |
| HashTable.Table.Delete | hash.c:28-59 | removes exactly the first node of the key, or reports that there is none and changes nothing |
| HashTable.Table.ScanFinds | hash.c:95-102 | scanning from bucket i finds the first node of bucket i or later |
| HashTable.Table.SuccessorIsNext | hash.c:84-102 | the cursor that recomputes its bucket from the key moves to the next node in bucket-then-chain order |
| HashTable.Table.CursorVisitsEachOnce | hash.c:77-104 | from NULL, k steps of the cursor give the k-th node, and one more step than there are nodes gives NULL |
| HashTable.Table.NextItem | hash.c:77-104 | the code of the cursor computes that successor and terminates |
| HashTable.Table.DeleteAll | hash.c:106-124 | afterwards the table is valid and empty |
| AddrHash.Hash | addr_hash.c:45-78 | every key hashes below 0xFFF |
| AddrHash.KeyFunctionsFit | addr_hash.c:13-78 | `compare` is equality of keys and every key has a bucket of the table |
| AddrHash.HashIsSum | addr_hash.c:38-78 | the hash is the sum of the address bytes and ports modulo 4095, and is the same for both directions |
| NetFilter.AndPrefix | iftop.c:280-284 | masked by the ones from bit k up, two words agree exactly when their quotients by 2^k do |
| NetFilter.AndBits | iftop.c:280-284 | a bit of a masked word is set exactly if it is set in word and mask |
| Bytes.HtonlBytes | options.c:604-609 | the byte-order change reverses the four bytes of a word |
| NetFilter.HtonlAnd | options.c:604-622 | masking commutes with the change of byte order |
| NetFilter.PrefixMaskValue | options.c:600-610 | the shifted mask and the special case for 32 are both the network-order word of n leading ones |
| NetFilter.PrefixFilterMatches | options.c:592-622 | with the stored mask and the normalised net, an address passes exactly when it shares the net's top n bits, for n from 0 to 32 |
| NetFilter.DecimalIsRead | options.c:592-595 | the decimal text of every number, also behind leading zeros, is read as that number |
| NetFilter.OptionText | options.c:580-587 | an option is taken apart at its slash into host and mask text |
| NetFilter.FilterOptions.GetNetFilter | options.c:572-626 | all outcomes: for the decimal text of n up to 32 the filter accepts exactly the addresses with the net's top n bits, above 32 the old mask stays in force, a dotted mask is used as it is, and the option text is left cut at its slash |
| Packets.OrientPairsIff | iftop.c:401-481 | a packet and its reply get one key with one on each side of the flow, or are both dropped, exactly under the stated condition |
| Packets.ClassifyPairsIff | iftop.c:390-511 | after all filters and the dynamic-port rewrite packet and reply are paired exactly under that condition, or when the protocol is blocked or every key they have is refused by the router or port filter |
| Packets.DirectionsDisagreeIff | iftop.c:401-547 | for every admitted packet, when flow and totals count it in different directions: between two hosts exactly when hardware, own address, net filter and multicast decide nothing and the sender has the larger address, from a host to itself exactly when it counts as incoming |
| Packets.FlowKeySymmetry | iftop.c:298-536 | different hosts, neither multicast: packet and reply are both dropped or share a key, one counting as sent and the other as received |
| Packets.MulticastBreaksSymmetry | iftop.c:432-453 | a packet to a numerically smaller multicast address and its reply become two flows |
| PacketLaws.PortListed | iftop_api.c:98-120 | a port list holds what stands before its terminator, and never port 0 |
| PacketLaws.ProtocolBlocked | iftop.c:392-397 | so does the list of blocked protocols |
| PacketLaws.ClassifyInFields | iftop.c:390-511 | the whole classification in the fields of the packet: exactly when it is dropped, which end comes first, all fields of the key, and exactly when it is outgoing |
| PacketLaws.EphemeralPortsAreOne | iftop.c:498-504 | replacing a far port from 49152 on by another one gives the same key, whichever end is the far one |
| PacketLaws.KeyNamesBothEnds | iftop.c:298-329 | with other ports the key gives back protocol, addresses and ports of the packet |
| PacketLaws.InsideHostIsSource | iftop.c:462-481 | with a prefix filter the source shares the net's top bits, the other end does not, and packets from inside go out |
| Flows.CriteriaExclusive | iftop.c:140-202 | a flow that meets both thresholds can be neither short nor low-traffic |
| FlowLaws.RotateInFields | iftop.c:140-206 | in the fields of a flow: removed exactly if unapproved and older than two minutes but shorter than the duration, or below the threshold and silent for longer than the interval; approved exactly if it was or lasted for the duration with more than the threshold; nothing else changes |
| FlowLaws.CountInFields | iftop.c:513-536 | in the fields of a flow: the length is added to the sent or the received counter modulo 2^64, the time noted, a new flow starts from nothing |
| FlowLaws.ActiveFlowSurvives | iftop.c:140-206 | a flow with a packet not longer than the interval ago survives, once it lasted for the duration or while it is younger than two minutes |
| FlowLaws.FlowEarnsApproval | iftop.c:195-200 | the packet that takes a flow over both thresholds earns it approval at the next rotation |
| FlowLaws.RotationTimes | iftop.c:246-271 | a tick or packet four seconds or more after the last rotation rotates, a forced tick always, and no other |
| FlowLaws.OtherKeys | iftop.c:362-548 | an event does to every flow that it does not hit what its rotation does, and nothing else |
| FlowLaws.QuietFlowExpires | iftop.c:160-193 | in every run a flow below the threshold that gets no packet is gone after the first due tick past the interval |
| FlowLaws.ApprovedExactly | iftop.c:204-206 | what is counted and reported are exactly the approved flows of the table, each once |
| Flows.RotateLookup | iftop.c:171-214 | a rotation removes exactly the unapproved short or low-traffic flows; survivors are approved iff they were or meet both thresholds, with all else unchanged |
| Flows.RotateKeepsOrder | iftop.c:182-214 | the survivors keep the order of the table |
| Flows.RotateKeepsShape | iftop.c:171-214 | keys stay distinct and in bucket order |
| Flows.RotateTwice | iftop.c:171-214 | rotating again at the same time changes nothing |
| Flows.RotateKeepsApproved | iftop.c:187-206 | a rotation reports at least as many approved flows as there were |
| Flows.InsertKeepsShape | iftop.c:513-516 | a new key at the head of its bucket keeps keys distinct and in bucket order |
| FlowRuns.RunKeepsShape | iftop.c:240-277 | keys stay distinct and in bucket order over every run |
| FlowRuns.CountInLookup | iftop.c:513-536 | a packet changes the flow of its own key only, creating it zeroed if need be |
| FlowRuns.CountInConserves | iftop.c:518-536 | a counted packet adds its length to the sent or to the received volume of the table modulo 2^64, and nothing to the other |
| FlowRuns.RotateConserves | iftop.c:187-193 | what a rotation takes from the live flows it evicts, sent and received apart |
| FlowRuns.SidesConserved | iftop.c:362-548 | over any run, modulo 2^64: sent bytes of live plus evicted flows grow by the admitted packets from the source of their flow, received ones by the others; the totals grow by the outgoing and by the incoming packets |
| FlowRuns.RunConserves | iftop.c:362-548 | over any run both the totals and the live plus evicted flows grow by the admitted bytes, modulo 2^64 |
| FlowRuns.TotalsConserved | iftop.c:513-547 | `history_totals`, sent plus received, equals the volume of the live and of all evicted flows modulo 2^64 |
| FlowRuns.ApprovalIsPermanent | iftop.c:187-206 | an approved flow stays in the table and approved in every run |
| FlowRuns.SizesNeverDecrease | iftop.c:171-237 | a rotation after any run returns at least the number approved before the run |
| Iftop.ScanPortList | iftop_api.c:98-120 | finds a non-zero port before the terminator |
| Iftop.ScanBlocked | iftop.c:392-397 | finds a protocol before the terminator and never passes it |
| Iftop.TreatedStep | iftop.c:182-214 | treating the node under the cursor in place is one step of the rotation of the value |
| Iftop.Monitor.Evict | iftop.c:187-193 | deleting by key removes the very node under the cursor |
| Iftop.Monitor.RotateNode | iftop.c:182-214 | one turn of the loop evicts, promotes or keeps that node, and the cursor fetched before the deletion is the next node after it |
| Iftop.Monitor.HistoryRotate | iftop.c:171-237 | deleting while iterating leaves exactly the rotated table, and the returned size is the number of approved flows in it |
| Iftop.Monitor.ReportAndReconnect | iftop.c:252-267 | the report is built for the size of the rotation, the connection is looked after, then the message is sent |
| Iftop.Monitor.Tick | iftop.c:240-277 | flows, totals, time stamps and MQTT session move as the two state machines say, and a new report holds exactly the approved flows |
| Iftop.Monitor.ClassifyPacket | iftop.c:390-511 | the branches compute the classification used in the symmetry results |
| Iftop.Monitor.FindOrCreate | iftop.c:513-516 | an unknown key gets a new record at its bucket head |
| Iftop.Monitor.Account | iftop.c:513-547 | record and totals are updated as in the value model |
| Iftop.Monitor.HandleIpPacket | iftop.c:362-548 | one packet is one step of the run model, with the tick it contains |
| Report.DecodeInvertsEncodeOne | Python_Client/mqtt_client.py:187-195 | decoding a record gives back every field, addresses as the big-endian value of their network-order bytes |
| Report.DecodeInvertsEncode | Python_Client/mqtt_client.py:184-195 | decoding a message gives back exactly the reported flows in iteration order |
| Report.SwapIsHtonl | Python_Client/mqtt_client.py:193-195 | pack big-endian, unpack little-endian is the change to host order |
| Report.TimesSurvive | mqtt.c:239-243 | times that fit the four-byte word arrive unchanged |
| Report.RecordLayout | mqtt.c:219-242 | where each field lies in the 38 bytes, lowest byte first |
| Report.RecordRead | Python_Client/mqtt_client.py:187-195 | what the client makes of any 38 bytes, addresses highest byte first |
| Mqtt.StepKeepsInv | iftop.c:240-277 | every allowed step keeps one message at most in flight, tied to status, token and buffer |
| Mqtt.FreshSession | mqtt.c:84-110 | a new session has no message, no buffers and no token that counts as confirmed |
| Mqtt.TickConnection | mqtt.c:113-118 | a due tick more than two minutes after the last try tries again, and the session is on exactly if it was or the broker accepts |
| Mqtt.LossReconnects | mqtt.c:74-81 | after a loss the session is on exactly if the broker accepts at once, and nothing is pending |
| Mqtt.ReconnectsInTime | mqtt.c:113-141 | in every run a lost session is on again after the first due tick over two minutes later with a willing broker |
| Mqtt.PendingStays | mqtt.c:186-194 | on an unbroken connection a pending message stays the only one until its own confirmation |
| Mqtt.ReportLifecycle | mqtt.c:186-329 | a report goes out, stays the only message whatever happens, completes with the tick after its confirmation with its buffers freed, and then a non-empty next one may go out |
| Mqtt.OneMessageOneBuffer | mqtt.c:74-141 | in every allowed run at most one message is outstanding and raw buffers live are 1 when pending and 0 otherwise |
| Mqtt.CompressedBuffers | mqtt.c:121-127 | compressed buffers live are those of the pending message plus one for each loss that found a message pending |
| Mqtt.CompressedBalanceIff | mqtt.c:74-141 | they balance exactly when no loss found a message pending |
| Mqtt.LossLeavesCompressedBuffer | mqtt.c:121-127 | an allowed run with one such loss, which ends with a compressed buffer live and nothing pending |
| Mqtt.CheckStatusBalanceIff | mqtt.c:319-329 | one status check keeps the raw balance exactly unless it finds a confirmed token with nothing pending |
| Mqtt.StepCountsBuffers | iftop.c:240-277 | what any event, allowed or not, does to both buffer counts |
| Mqtt.BuffersInAnyRun | mqtt.c:49-329 | in every run, without any promise of the library, raw buffers live are pending less faults, and compressed ones pending plus losses that found a message pending less faults |
| Mqtt.BalanceIffNoFault | mqtt.c:49-329 | in every run the raw buffers balance exactly without faults, and both kinds exactly without faults and such losses |
| Mqtt.AllowedRunHasNoFault | mqtt.c:319-329 | the library's promises exclude faults |
| Mqtt.LateDeliveryBreaksBalance | mqtt.c:49-52 | a confirmation after a loss frees the raw buffer twice |
| Mqtt.RepeatedDeliveryBreaksBalance | mqtt.c:319-329 | so does a second confirmation |
| Mqtt.LossBeforeCheckBreaksBalance | mqtt.c:74-81 | so does a loss between confirmation and status check |
| Mqtt.ZeroTokenBreaksBalance | mqtt.c:307-311 | a publish that returns token 0 counts as confirmed at every check |
| Mqtt.PutRecord | mqtt.c:219-242 | the nine copies append the 38 bytes of one record |
| Mqtt.CopyApproved | mqtt.c:204-247 | the copying loop fills a buffer made for the number of approved flows to its very end and never passes it |
| Mqtt.Publisher.constructor | mqtt.c:84-110 | the session starts without a token, connected if the broker accepted |
| Mqtt.Publisher.ConnectAndSubscribe | mqtt.c:121-141 | a pending raw message is given up before connecting |
| Mqtt.Publisher.CheckMqttConnection | mqtt.c:113-118 | reconnects when off for longer than the interval |
| Mqtt.Publisher.ConnLost | mqtt.c:74-81 | connection off, time noted, reconnection tried |
| Mqtt.Publisher.ConstructMqttMsg | mqtt.c:186-255 | refused while pending, unconnected or empty; else the new buffer is exactly the encoded approved flows |
| Mqtt.Publisher.SendMqttMsg | mqtt.c:291-316 | publishes and notes the token, or frees the message when unconnected |
| Mqtt.Publisher.CheckStatus | mqtt.c:319-329 | a confirmed token completes the message and frees its buffers |
| Collector.MergeIsExact | Python_Client/mqtt_client.py:184-222 | without the port option a host has one row per outer address, each with the sums, first creation, last end and protocols of its records, and no record is missed |
| Collector.MergeIgnoresOrder | Python_Client/mqtt_client.py:184-222 | the same records in another order give the same rows up to order |
| Collector.TotalIsHostSum | Python_Client/mqtt_client.py:226-235 | a host's rows add up to all its records, with or without the port option |
| Collector.PortOptionKeepsTotals | Python_Client/mqtt_client.py:204-235 | the totals do not depend on the port option |
| Collector.CampusRange | Python_Client/mqtt_client.py:197-202 | listed are exactly the hosts 172.16.0.0 to 172.16.255.255 that some record names |
| Collector.PortRowsInTable | Python_Client/mqtt_client.py:204-205 | with the port option the rows of a host are its records, one by one, in order and field by field |
| Collector.KeyCompareIsLexicographic | Python_Client/mqtt_client.py:239-240 | on keys that get into the table the comparison orders by box, then address |
| Collector.Receiver.SaveRecord | Python_Client/mqtt_client.py:193-222 | one record is filtered and merged or appended as in the value model |
| Collector.Receiver.SaveData | Python_Client/mqtt_client.py:184-222 | all whole records are merged in order, and it fails exactly when the length is no multiple of the record size |
| Collector.Receiver.SumRows | Python_Client/mqtt_client.py:230-235 | the loop computes the two totals and their sum |
| Collector.Receiver.Process | Python_Client/mqtt_client.py:226-235 | every host of the table gets its totals, other entries stay |
| Collector.Receiver.Clear | Python_Client/mqtt_client.py:387-390 | a new request to the boxes starts from an empty table |
| Delivery.ReportedTotals | Python_Client/mqtt_client.py:184-235 | end to end: after any series of reports from any boxes, saved from an empty table on, the client lists exactly the campus hosts with an approved flow in some report, each with the sum over its box's reports of the bytes of those flows |
| Delivery.LatestCountIff | Python_Client/mqtt_client.py:213-214 | after a further report the figure is what that report says exactly if the earlier reports of the box had no bytes for the host |
| IpLocator.AtMostOneRange | Python_Client/mqtt_client.py:81-89 | at most one of the ordered ranges contains an address |
| IpLocator.Locator.GetIpAddr | Python_Client/mqtt_client.py:91-114 | the search terminates, a hit is a range that contains the address, and a miss means that no range does or the address is misdirected |
| IpLocator.LastRangeMissed | Python_Client/mqtt_client.py:94-109 | of several ranges, an address in the last one is missed exactly below 255.255.255.0 |
| IpLocator.EarlierRangeMissed | Python_Client/mqtt_client.py:105-109 | an address in any other range is missed exactly from 255.255.255.0 on |
| IpLocator.NeverMisdirectedIff | Python_Client/mqtt_client.py:91-114 | no address is misdirected exactly if there is one range, or the last starts at 255.255.255.0 or later and the one before ends below |
| IpLocator.VersionRecordLast | Python_Client/mqtt_client.py:105-107 | in particular with a last record from 255.255.255.0 no address is misdirected |
| Resolver.SameKeyIff | ns_hash.c:17-49 | the cache tells IPv4 addresses apart, and IPv6 addresses exactly by their first eight bytes |
| Resolver.NsHashOfWords | ns_hash.c:23-40 | the hash of a key is the byte sum of its four words modulo 255 |
| Resolver.NumericalByKey | resolver.c:505-509 | whether an address stays numerical depends on its cache key only |
| Resolver.Push | resolver.c:511-512 | storing at the head appends to the queue |
| Resolver.Pop | resolver.c:420-424 | advancing the tail takes off the oldest entry |
| Resolver.FullIff | resolver.c:502-504 | the ring is called full exactly when 19 addresses are queued |
| Resolver.StepKeepsInv | resolver.c:408-527 | every critical section keeps: indices in range, taken then queued is all that was put in, in order, every key put in once and cached, no key resolved by two workers |
| Resolver.RunKeepsInv | resolver.c:408-527 | so does every run, and nothing put in, taken out or cached is lost and no cached key is queued |
| Resolver.FinishReplaces | resolver.c:435-445 | a worker only ever replaces the entry of its address |
| Resolver.FirstRequestCaches | resolver.c:491-498 | the first request for a key caches its numerical form, and a request changes no other entry |
| Resolver.LatestAnswerWins | resolver.c:435-445 | in every run a cached key has the name stored last for it, or else the one it had |
| Resolver.EverQueuedIff | resolver.c:491-514 | an uncached key is queued, at its first request or in any run after it, exactly if then the ring has room and the address may be resolved |
| Resolver.NoStrandedWork | resolver.c:408-521 | if some worker waited before the first request was queued, a non-empty queue always has a worker awake or a signal owed, in every interleaving |
| Resolver.NeverStrandedIff | resolver.c:408-521 | work is safe in every continuation exactly when some worker has waited and nothing is stranded now |
| Resolver.CanDrainIff | resolver.c:413-447 | a state is stranded exactly when workers and owed signals cannot empty the queue by themselves |
| Resolver.OwnRunBounded | resolver.c:413-521 | every step of a worker or an owed signal uses up the bound, so runs of these alone are finite |
| Resolver.EveryScheduleDrains | resolver.c:413-521 | once some worker has waited and nothing is stranded, every schedule of the workers and owed signals ends within the stated number of steps, and one that cannot go on has emptied the queue |
| ResolverQueue.InsertCaches | resolver.c:444-498 | inserting an absent key keeps one node per cached key |
| ResolverQueue.StoredAllAnswers | resolver.c:418-447 | after one pass of a worker every queued address has its answer and nothing else changed |
| ResolverQueue.Queues.constructor | resolver.c:452-458 | the queue and the cache start empty |
| ResolverQueue.Queues.Resolve | resolver.c:471-527 | the data change as in the transition system, a request is added exactly when it is new, there is room and it may be resolved, and the cached name is copied within the caller's buffer |
| ResolverQueue.Queues.Take | resolver.c:418-424 | takes the oldest address or nothing |
| ResolverQueue.Queues.Store | resolver.c:435-445 | find, delete and insert leave one entry with the new name |
| ResolverQueue.Queues.KeepResolving | resolver.c:418-447 | the inner loop, alone, empties the queue in order and caches every answer |
| StringMap.StrCmpTransitive | stringmap.c:68-80 | string comparison is transitive, on which the tree's order rests |
| StringMap.LeafKeepsShape | stringmap.c:72-87 | a new leaf keeps the shape: each subtree a contiguous stretch of the key order |
| StringMap.Tree.constructor | stringmap.c:23-29 | the tree starts as the empty map |
| StringMap.Tree.Descend | stringmap.c:67-88 | the descent ends at the key's object, or where its place is missing, and then the map does not hold the key |
| StringMap.Tree.Find | stringmap.c:96-111 | succeeds exactly on the keys of the map, with the value |
| StringMap.Tree.Insert | stringmap.c:59-91 | first insertion wins: an existing key changes nothing and its value is returned; a new key is added to the map and the order is kept |
| StringMap.Tree.Overwrite | cfgfile.c:238-240 | assigning through a found item changes that key's value only |
| CfgFile.Precedence | cfgfile.c:84-139 | after any settings and then any file, a directive is the last value set, else that of its first valid line, else absent |
| CfgFile.LastSetWins | cfgfile.c:234-245 | setting a directive once more makes that its value, and no other one's |
| Settings.SettingIsRead | cfgfile.c:96-120 | a written key and value are read back, whatever blanks, further words before the colon and comment stand around them |
| Settings.SetsNothingIff | cfgfile.c:96-111 | a line sets nothing exactly if it has no colon before its comment or only blanks in front of the first one |
| Settings.PlainLine | cfgfile.c:84-94 | a line of up to 2046 characters is read as it stands |
| Settings.LongLineIsCut | cfgfile.c:84-87 | a longer one is cut after 2047 characters and read on as another line |
| Settings.LastLine | cfgfile.c:84-87 | the last line may lack its newline |
| Settings.WrittenSettingWins | cfgfile.c:84-139 | a directive that a line of the file sets has that value, unless it was set before or by an earlier line |
| Settings.NetFilterIsRead | cfgfile.c:84-139 | end to end for a net filter with a comment behind it |
| CfgFile.DirectivesAreValid | cfgfile.c:124-128 | a file brings in known directives only |
| CfgFile.SplitReadsTheSameIff | cfgfile.c:84-94 | a line that fits the buffer and does not end in a backslash is read the same when split with continuations exactly if every piece fits the room it is given |
| CfgFile.LinesConcat | cfgfile.c:84-94 | the lines read from whole lines that ask for no continuation do not depend on what follows them in the file |
| CfgFile.SplitLineReadsTheSame | cfgfile.c:84-139 | such a split, at any place of a file behind lines that do not continue into it, changes no line that is read from the whole file |
| CfgFile.ContinueLength | cfgfile.c:90-94 | a logical line is at most as long as the characters read, less two for each newline: no turn gains more than it reads |
| CfgFile.LostPieces | cfgfile.c:90-94 | a piece that does not fit costs a character for good, whatever comes after it |
| CfgFile.LateSplitLosesText | cfgfile.c:90-94 | a split behind 2045 characters cuts the line one character earlier than unsplit |
| CfgFile.GetLine | cfgfile.c:84-94 | the two loops over the buffer read one logical line |
| CfgFile.IsCfgDirectiveValid | cfgfile.c:53-58 | accepts exactly the names of the list |
| CfgFile.Config.constructor | cfgfile.c:60-63 | the store starts empty |
| CfgFile.Config.ConfigGetString | cfgfile.c:192-198 | the value of the map, or none |
| CfgFile.Config.ConfigSetString | cfgfile.c:234-245 | sets or overrides one directive of the map |
| CfgFile.Config.ReadConfigFile | cfgfile.c:70-150 | inserts the valid lines in order, first one wins and earlier settings stay; fails only when the file cannot be opened |
| HexAddr.AddrToString | dlcommon.c:1088-1101 | the buffer holds the printed text and its terminator; for length 0 it is not touched |
| HexAddr.PrintedSnoc | dlcommon.c:1095-1100 | the printed text is the bytes in small hexadecimal letters, without leading zeros, with single colons between |
| HexAddr.StringToAddr | dlcommon.c:1106-1126 | tokenising in place computes the parse, and fails exactly when a token is no number or above 0xff |
| HexAddr.ScanReads | dlcommon.c:1116 | a number below 2^31 is read back in small or capital letters, behind blanks, a sign and a prefix |
| HexAddr.NumberToken | dlcommon.c:1115-1121 | which numbers a token may hold: up to 0xff, and by the sign of `int` those from 2^31 on, stored as their low byte |
| HexAddr.ScanHexByte | dlcommon.c:1116-1118 | the printed form of a byte scans to that byte |
| HexAddr.ParseWithColons | dlcommon.c:1115-1123 | printed bytes in front of any text parse to those bytes in front of its parse |
| HexAddr.PrintThenParse | dlcommon.c:1088-1126 | parsing what was printed gives the same bytes, for every non-empty byte string |

## Left out

- Iftop.Monitor.HandleIpPacket: the index of the blocked-protocol loop, uninitialised at iftop.c:392, is taken to start at 0; a packet with its tick is one atomic step.
- Iftop.Monitor.RotateNode: the freed record's approval, read at iftop.c:204 after an eviction, is taken to be the 0 it held.
- Flows.RotateLookup: times and their differences are unbounded integers, not 32-bit `time_t`; only their four-byte images in the report wrap.
- Mqtt.OneMessageOneBuffer: holds under the library's promises in `Mqtt.Allowed` (token not 0 as in section 2.3.1 of MQTT 3.1.1, one delivery per message in flight, no loss between delivery and status check); callbacks, ticks and packets are atomic steps, not racing threads.
- Mqtt.Publisher.ConstructMqttMsg: the compressed copy is only counted as a buffer; zlib's contents and the client's decompression are not modelled, so the round trip is about the uncompressed payload.
- Mqtt.Publisher.SendMqttMsg: the client library is an answer passed in; topics, quality of service and `destory_MQTT` are not modelled.
- Resolver.NoStrandedWork: a critical section under the mutex is one step, any number of workers is allowed where the source starts two, and `do_resolve` may answer anything.
- ResolverQueue.Queues.KeepResolving: the worker's endless outer loop is the transition system; this method is one pass of the inner loop with no other thread running.
- ResolverQueue.Queues.Resolve: `inet_ntop` is the text passed in, and the copy to the caller is of the name found under the lock; what another thread does to it in between is not modelled.
- CfgFile.Config.ReadConfigFile: the line buffer is a string value instead of an array edited in place, a file is text without NUL characters, the `fgets` of size 1 reads nothing as in glibc, and warnings are not modelled.
- HexAddr.StringToAddr: `sscanf` is modelled for a 32-bit `long`, "0x" without digits counts as no number, and `err` ends the parse with a failure.
- IpLocator.Locator.GetIpAddr: ranges are values; the seeking and string chasing in the data file, and an empty index, are not modelled.
- NetFilter.FilterOptions.GetNetFilter: `inet_aton` is a function passed in.
- Collector.Receiver.Process: Python dictionaries iterate in some order; the result does not depend on it.
- Freeing memory and failed allocation are not modelled, except for the counted MQTT payload buffers.
- The IPv6 net filter, packet capture and link-layer decoding, display, keyboard and signals, `vector.c`, `sorted_list.c`, `serv_hash.c` and `mqtt_client_mysql.py` would add only input/output or easy members.
- The numeric, boolean and enumeration readers of `cfgfile.c` are left out: they are single conversions of a value that `ConfigGetString` returns.
