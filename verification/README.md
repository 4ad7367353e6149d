# Verified model of the MQTT broker and its services

The broker is a single-threaded MQTT 3.1.1 server for a microcontroller, with three small services beside it: scheduled
publishes, detection of echo loops, and an SNTP server. This project models them in Dafny and proves what they promise.
Verify it with `dafny verify dfyconfig.toml`.

Code that changes state is modelled the same way: as classes over arrays, linked nodes and counters whose methods run the
same loops and branches as the C functions. Each method is proved equal to a function on values (`BrokerState`,
`Retained`, `Wire`, `TopicMatch`, `TimerText`, ...), and the promises are lemmas about those functions.

| files | what they model |
|---|---|
| `Wire`, `WireLaws` | remaining length, framing, PUBLISH and acknowledgement packets (sections 2.2.3 and 3.3 of MQTT 3.1.1) |
| `TopicMatch` | the one-pass topic matcher against sections 4.7.1 and 4.7.2 of MQTT 3.1.1 |
| `Framing` | from received bytes to dispatched packets, with the receive buffer of a client |
| `Retained`, `RetainedLaws`, `RetainStore` | the linked list of retained messages |
| `BrokerState`, `Broker` | the broker's tables, as one value and as arrays, and its main loop |
| `SubPool`, `InflightLaws`, `BrokerInvariant`, `BrokerMeaning`, `BrokerRuns` | what the broker's operations mean and keep, and what holds over every run |
| `DeliveryLevels`, `Fanout` | whom a publish reaches, at which QoS, and when it arrives intact |
| `BrokerPackets`, `BrokerSubscribe` | what each packet of a client does, from its bytes to the tables, the answers and what others are sent |
| `BrokerActivity` | when a client is heard, and whom the keep-alive check loses over a run |
| `Retransmission` | what enqueueing and walking do to the in-flight table, slot by slot |
| `BrokerWorld`, `BrokerStream` | the broker together with its retained messages, over runs and over a byte stream |
| `BrokerExamples` | short runs from power-up that show two of the differences below |
| `TimerText`, `TimerBlob`, `TimerLaws`, `TimerRoundTrip`, `TimerStorable` | the JSON store of the timers: printer, parser, and that they undo each other |
| `TimerNames` | what the members of the store are called and may hold, and what escapes mean |
| `TimerSchedule`, `TimerScheduleLaws` | the sweep and the predictor of the timers |
| `TimerDays` | which days the letters of a timer mean, for both |
| `EchoDetect`, `EchoLaws` | the echo detector |
| `RateLimit`, `DriftRing` | the rate limiter of the SNTP server and the drift estimate |
| `Bytes`, `Sums` | bytes, 16-bit fields, and sums over sequences |

## How the broker is modelled

A state holds the client slots, the subscription pool, the in-flight table, the counters and the shared send buffer. A run
is any sequence of accepted connections, packets of open connections, lost connections, local publishes, keep-alive checks,
retry walks and expiry checks of the retained messages, at times that never go back. `BrokerWorld` adds the retained
messages: what a SUBSCRIBE is sent is what is retained then, and `Broker.Loop` is proved equal to such a run. Two oracles
decide which calls of `send` and which allocations succeed, so a client may be lost in the middle of a fanout, of a retry
walk or of a retained delivery; every invariant is proved for all oracles. The history of the in-flight messages and the
log of what was sent are kept beside the tables only to state promises about them; the broker never reads them.

## Where the code differs from its own description

The model follows the code; each difference is a lemma, with an input that shows it and the exact condition.

- The comment above the fanout loop speaks of two passes (main/mqtt_broker.c:1097-1099); the loop is one pass over the
  shared send buffer, and a QoS-0 delivery after a QoS-1 one sends the front of the wrong packet.
  `FanoutIntactIffOrdered` and `QoS1PublishIntactIffGrantsOrdered` say from the state before the call exactly when a
  publish is delivered intact; `BrokenFanoutIsReachable` is a run from power-up that ends in a broken one.
- A second CONNECT on a live connection counts it again (main/mqtt_broker.c:842): `SecondConnectCountsTwice`.
  `CounterExactlyWithoutReconnects` says by how much the counter is off, and that it is right exactly without such a
  CONNECT.
- The matcher applies the rule for `$` at every level (main/mqtt_parser.c:522-533) and never lets `+` match an empty last
  level (main/mqtt_parser.c:546). `MatcherMeaning` is exact for every valid filter; `ConformsExactlyOnPlain` says on which
  topics the matcher follows the standard, and `PlusDiffers` gives the filter that shows the difference on any other.
- Of two retained messages with the same timestamp the one stored later is evicted first, the comparison at
  main/mqtt_broker.c:637 being strict and the list newest first: `TieEvictsNewer` is such a run. Eviction is first in,
  first out exactly when no timestamp in the list repeats or goes back (`FirstInFirstOutExactlyWhenNewestFirst`).
- The header of the echo detector promises a sliding window (main/echo_detect.h:4-6); the code has one that starts over
  (main/echo_detect.c:133-140). The two agree exactly for N up to 2, after a clearing N up to 1, or windows of no length
  (`SlidesExactlyForSmallCounts`); otherwise 2N - 2 publishes within M seconds, 2N - 1 after a clearing, are needed to be
  sure of a detection (`EnoughIsFlagged`), and one fewer is not enough (`OneFewerIsMissedExactlyWithAWindow`).
- The header also has `echo_track` return whether the topic was just detected; it returns whether the topic is flagged
  (main/echo_detect.c:149). The two agree exactly on topics not flagged before the call
  (`AnswerIsNewsExactlyWhenUnflagged`); `SecondAnswerIsNoNews` shows them apart.
- The guard of the timers against firing twice compares minutes of UTC (main/timers.c:808). It keeps a slot to one fire a
  local day exactly in the zones that are whole minutes away from UTC (`DedupHoldsExactlyForWholeMinutes`);
  `TwoFiresInOneLocalMinute` is the run that shows it in any other.
- The drift estimate is cast to 32 bits before it is clamped (main/ntp.c:136-140), so a large step of the clock can look
  like none (`SteppedClockLooksPerfect`); `ClampedSlopeExactlyWhenItFits` says exactly when the estimate is the slope.
- The comment above the limiter calls it a token bucket (main/ntp.c:475); it counts a burst of requests that follow each
  other within a second, and a source is served again only when more than 1000 ms have passed since it last was. A
  source at a steady pace is served throughout exactly when it leaves more than a second between requests or sends no
  more than ten (`SteadySourceServedExactlyWhenSlow`): at one request every 900 ms the eleventh is refused.

## Model

| member | source | states |
|---|---|---|
| Wire.DecodeRemainingLength | main/mqtt_parser.c:11-29 | the result is 0, -1 or the bytes used exactly as the recursive decoding has it; no input makes the 32-bit variables wrap |
| Wire.EncodeRemainingLength | main/mqtt_parser.c:31-41 | for every 32-bit value the buffer receives exactly its encoding, and no other byte changes |
| WireLaws.DecodeEncode | main/mqtt_parser.c:11-41 | decoding an encoded length gives the length back and stops at its end, whatever follows |
| WireLaws.EncodeDecode | main/mqtt_parser.c:11-41 | an accepted length is below 2^28 in at most four bytes, and no form of it is shorter than the encoder's, which is the only one of its length |
| WireLaws.LengthMeaning | main/mqtt_parser.c:11-29 | the rule of section 2.2.3 of MQTT 3.1.1: up to four bytes, the lowest seven bits first, the top bit set in all but the last; more is needed, or the length malformed, exactly when the bytes so far all go on |
| Wire.PacketLength | main/mqtt_parser.c:72-84 | need more, malformed or the exact length, as the framing function says |
| WireLaws.FrameGrows | main/mqtt_parser.c:72-84 | bytes that arrive later never change a verdict, and a packet takes two bytes or more |
| WireLaws.FrameIsOwnFrame | main/mqtt_parser.c:72-84 | a packet cut out of the stream is framed as itself |
| Wire.BuildPublish | main/mqtt_parser.c:441-493 | refuses exactly QoS 3 and packets larger than the buffer, leaving it alone; otherwise the buffer begins with the packet and the rest is untouched |
| Wire.ParsePublishPacket | main/mqtt_parser.c:307-351 | the fields found, or none, are those of the parsing function |
| WireLaws.PublishOnTheWire | main/mqtt_parser.c:441-493 | the layout of a built PUBLISH byte by byte: type and flags, length, topic with its length, id at QoS 1 and 2 only, payload, numbers high byte first |
| WireLaws.PublishRoundTrip | main/mqtt_parser.c:307-351 | a built PUBLISH is framed at its own length whatever follows, and parses back to payload, retain, QoS, id, effective DUP and the first 127 bytes of the topic |
| WireLaws.PublishInjective | main/mqtt_parser.c:441-493 | equal packets carry equal messages |
| WireLaws.AckRoundTrip | main/mqtt_parser.c:289-303 | a built acknowledgement is a packet of four bytes that parses back to its id |
| TopicMatch.TopicMatches | main/mqtt_parser.c:515-577 | the loop over the two cursors decides as the recursive scan |
| TopicMatch.ScanLevels | main/mqtt_parser.c:515-577 | for every valid filter the character scan is a match level by level |
| TopicMatch.MatcherMeaning | main/mqtt_parser.c:515-577 | for every valid filter and every topic the matcher accepts exactly what the standard accepts, less what it refuses for `$` levels and an empty last level |
| TopicMatch.ConformsExactlyOnPlain | main/mqtt_parser.c:522-546 | the matcher follows the standard on a topic for all valid filters if and only if the last level is not empty and only the first level begins with `$` |
| TopicMatch.PlusDiffers | main/mqtt_parser.c:538-546 | the filter that shows the difference on any other topic |
| RecvBuffer.Connection.constructor | main/mqtt_broker.c:1526-1534 | a new connection has seen nothing and holds no bytes |
| RecvBuffer.Connection.Process | main/mqtt_broker.c:1215-1304 | dispatches exactly the packets that framing the buffered bytes gives, keeps exactly the bytes left over, and ends for the same reason |
| RecvBuffer.Connection.Remove | main/mqtt_broker.c:1297-1303 | the bytes after the packet, and only those, are left in order at the front |
| RecvBuffer.Connection.OnReadable | main/mqtt_broker.c:1537-1568 | one read continues the framing by what fits; a full buffer ends the connection only when the packet in it announces more than the buffer holds |
| Framing.FramesSplit | main/mqtt_broker.c:1215-1304 | framing a stream cut in two is framing the whole |
| Framing.ChunkingIsInvisible | main/mqtt_broker.c:1537-1568 | however a stream is cut into reads, packets, left-over bytes and outcome are those of the whole stream |
| Framing.NothingLost | main/mqtt_broker.c:1215-1304 | dispatched packets are whole, and with the bytes left over they are exactly the stream |
| Framing.OutcomeMeaning | main/mqtt_broker.c:1215-1304 | dispatched packets and what follows them make up the stream; the first packet is a CONNECT, none but the last ends the connection, and the outcome is open, malformed, not a CONNECT or ended exactly by what follows |
| Framing.FullMeansTooLong | main/mqtt_broker.c:1548-1552 | a buffer of six bytes or more without a whole packet in it, if and only if the packet announces more than it holds |
| Framing.FittingStreamNeverFills | main/mqtt_broker.c:1537-1568 | a stream whose packets fit the buffer never meets the full-buffer disconnect, whatever the sizes of the reads |
| RetainStore.RetainStore.constructor | main/mqtt_broker.c:597-623 | an empty list with counters 0 |
| RetainStore.RetainStore.Free | main/mqtt_broker.c:597-612 | with exact counters both guards against underflow are dead code |
| RetainStore.RetainStore.Remove | main/mqtt_broker.c:615-623 | exactly one node leaves the list; order, counters and distinct topics are kept |
| RetainStore.RetainStore.FindOldest | main/mqtt_broker.c:631-643 | the first of the messages with the least timestamp, and the node before it |
| RetainStore.RetainStore.EvictForSpace | main/mqtt_broker.c:626-649 | the list is left as the eviction function says, with exact counters; the loop ends on the length of the list |
| RetainStore.RetainStore.EvictExpired | main/mqtt_broker.c:652-673 | exactly the messages past the time to live leave, in place, however many are neighbours |
| RetainStore.RetainStore.Store | main/mqtt_broker.c:680-749 | the list afterwards is the map update of the publish: delete, replace or insert after eviction, with one node a topic and exact counters |
| RetainedLaws.StoredIsLastWord | main/mqtt_broker.c:680-749 | over every run each stored message is the last one kept for its topic with no empty publish or replacement after it, and no topic is stored twice |
| RetainedLaws.LosslessIsExact | main/mqtt_broker.c:680-749 | without eviction or expiry the store is exactly the last words of the run |
| RetainedLaws.WithinLimit | main/mqtt_broker.c:626-649 | for a fixed limit every reachable store is within it or holds one message |
| RetainedLaws.EvictsOldestAndNoMore | main/mqtt_broker.c:626-649 | evicted and kept messages make up the store, no evicted one is newer than a kept or a later evicted one, and putting the last one back would exceed the limit |
| RetainedLaws.EvictsInOrder | main/mqtt_broker.c:626-649 | with strictly falling timestamps in list order what survives is a front part of the list |
| RetainedLaws.FirstInFirstOutExactlyWhenNewestFirst | main/mqtt_broker.c:626-649 | of a list with one message a topic, whatever is needed and whatever the limit, the front survives, if and only if its timestamps fall strictly from front to back |
| RetainedLaws.RunIsNewestFirst | main/mqtt_broker.c:742-745 | when the clock ticks between publishes the list is newest first in every reachable store |
| RetainedLaws.TieEvictsNewer | main/mqtt_broker.c:637 | a run of three publishes in which, of two messages with one timestamp, the third evicts the one stored later and leaves the older |
| RetainedLaws.FreshMeaning | main/mqtt_broker.c:652-673 | expiry keeps exactly the messages within the time to live, in order |
| RetainedLaws.SweepMeaning | main/mqtt_broker.c:652-673 | an expiry check keeps, in order, exactly the messages no older than the time to live in seconds, or all without one |
| RetainedLaws.PutMeaning | main/mqtt_broker.c:680-749 | a retained publish deletes its topic when empty, changes nothing when over 64 KB or out of memory, and else becomes the first message, all messages of other topics staying if the limit has room |
| RetainedLaws.TotalMeaning | main/mqtt_broker.c:569-573 | the store counts the bytes of topic and payload and 33 for each message |
| SubPool.SubscribeOneMeaning | main/mqtt_broker.c:878-920 | one topic of a SUBSCRIBE sets its key in the map; refused exactly when the key is new and the pool is full, and then nothing changes |
| SubPool.SubscribeMeaning | main/mqtt_broker.c:878-924 | a SUBSCRIBE applies its topics to the map in order with the return codes of the map |
| SubPool.UnsubscribeMeaning | main/mqtt_broker.c:945-956 | an UNSUBSCRIBE removes exactly the keys it names although it stops at each first hit |
| SubPool.DropSubsMeaning | main/mqtt_broker.c:509-514 | a disconnect removes exactly the client's keys |
| SubPool.MapSize | main/mqtt_broker.c:517-523 | the pool is full exactly when the map has as many entries as the pool has slots |
| Broker.Broker.constructor | main/mqtt_broker.c:1352-1420 | all tables empty, counters 0 |
| Broker.Broker.FreeSlotAt | main/mqtt_broker.c:414-431 | one slot and its bytes are given back, nothing else changes |
| Broker.Broker.FreeAllFor | main/mqtt_broker.c:433-441 | the client's slots are given back one by one |
| Broker.Broker.FindFreeSlot | main/mqtt_broker.c:443-450 | the first free slot of the client |
| Broker.Broker.NextPacketId | main/mqtt_broker.c:466-483 | the first id after the client's counter, 0 skipped and 16 bits wide, that no slot of the client holds |
| Broker.Broker.TryEnqueue | main/mqtt_broker.c:969-1012 | refuses or fills a slot as the enqueue function says, counters and id included |
| Broker.Broker.DisconnectClient | main/mqtt_broker.c:485-515 | the whole state after a disconnect |
| Broker.Broker.SendTo | main/mqtt_broker.c:526-565 | the data is out, or the client is disconnected |
| Broker.Broker.TransmitSlot | main/mqtt_broker.c:1017-1031 | the slot's packet in the shared buffer and sent, or the slot freed when the packet does not fit |
| Broker.Broker.RetrySlot | main/mqtt_broker.c:1043-1062 | one slot of the retry walk: left, abandoned, or put off and sent again |
| Broker.Broker.WalkInflight | main/mqtt_broker.c:1036-1065 | the whole walk, with clients lost on the way |
| Broker.Broker.AcceptConnection | main/mqtt_broker.c:1508-1533 | the first free slot takes the connection, or none |
| Broker.Broker.HandleConnect | main/mqtt_broker.c:781-860 | the whole state after a CONNECT, given the outcome of parsing and credentials |
| Broker.Broker.HandleSubscribe | main/mqtt_broker.c:862-934 | the pool, the SUBACK and the retained deliveries; the walk over the retained list survives the client's disconnect |
| Broker.Broker.HandleUnsubscribe | main/mqtt_broker.c:936-963 | the pool and the UNSUBACK |
| Broker.Broker.DeliverRetained | main/mqtt_broker.c:755-777 | the retained delivery along the linked list |
| Broker.Broker.FanoutTurn | main/mqtt_broker.c:1101-1129 | one subscription's turn, shared buffer included |
| Broker.Broker.PublishToAll | main/mqtt_broker.c:1075-1129 | the retained store is updated first, then the fanout runs through the pool |
| Broker.Broker.HandlePublishPacket | main/mqtt_broker.c:1151-1196 | the state and the retained messages after a PUBLISH, parse failures and QoS 2 included |
| Broker.Broker.HandlePuback | main/mqtt_broker.c:1260-1281 | the state after a PUBACK |
| Broker.Broker.CheckKeepAlive | main/mqtt_broker.c:1308-1323 | the state after the keep-alive check |
| Broker.Broker.DispatchPacket | main/mqtt_broker.c:1232-1296 | the state and the retained messages after any packet, before or after CONNECT |
| Broker.Broker.Perform | main/mqtt_broker.c:1463-1580 | one step of the main loop takes tables and retained messages where the step functions say, and leaves messages the next step can deliver |
| Broker.Broker.Loop | main/mqtt_broker.c:1463-1700 | over any sequence of events arrays and linked list end where the run says, so every statement about runs holds of them |
| BrokerInvariant.DisconnectKeeps | main/mqtt_broker.c:485-515 | a disconnect in any state that keeps the invariant keeps it, and touches no other client's slot |
| BrokerInvariant.SendKeeps | main/mqtt_broker.c:526-565 | so does a send, failing or not |
| BrokerInvariant.EnqueueEffect | main/mqtt_broker.c:969-1012 | an enqueue refuses if and only if the bytes would pass the cap, the client has no free slot or memory fails, touching no more than counters; otherwise it fills a free slot under an id that is not 0 and not in use, within the cap |
| BrokerInvariant.FirstSendKeeps | main/mqtt_broker.c:1017-1031 | the first transmission keeps the invariant whether it fits, is too large or loses the client |
| BrokerInvariant.FanoutKeeps | main/mqtt_broker.c:1100-1129 | a fanout that loses clients on the way keeps the invariant |
| BrokerInvariant.WalkKeeps | main/mqtt_broker.c:1036-1065 | a retry walk that loses clients on the way keeps it |
| BrokerInvariant.WalkCovers | main/mqtt_broker.c:1036-1065 | a walk leaves nothing due |
| BrokerInvariant.NamesakeGone | main/mqtt_broker.c:816-826 | after the one disconnect of a CONNECT no other client is left with its id |
| BrokerInvariant.TakeKeeps | main/mqtt_broker.c:1463-1580 | every step of the main loop keeps the invariant |
| InflightLaws.PacketIdFound | main/mqtt_broker.c:466-483 | pigeonhole: if fewer than n slots hold one of the next n ids, a free id is found within n attempts, across the wrap-around |
| InflightLaws.PacketIdAlwaysFound | main/mqtt_broker.c:466-483 | with a free slot an id is found within 20 attempts, so the failure value 0 is never seen by an enqueue |
| InflightLaws.FreeKeeps | main/mqtt_broker.c:414-431 | freeing a slot lowers the byte counter by its size: the guard against underflow is dead code |
| BrokerMeaning.DisconnectMeaning | main/mqtt_broker.c:485-515 | a disconnect clears the client, its subscriptions and its messages, and nothing of anyone else |
| BrokerMeaning.KeepAliveMeaning | main/mqtt_broker.c:1308-1323 | the keep-alive check loses exactly the connected clients silent for longer than their keep-alive in seconds and ten more, with all they own |
| BrokerMeaning.ConnectMeaning | main/mqtt_broker.c:814-860 | an accepted CONNECT leaves the slot connected under its id as the only one, with its keep-alive and the time, tells it so, and ends no more than the session that held the id, subscriptions and messages included |
| BrokerMeaning.RefusedConnectMeaning | main/mqtt_broker.c:853-860 | a refused CONNECT is told its code and ends the connection, and nobody else's |
| BrokerMeaning.PubackMeaning | main/mqtt_broker.c:1260-1281 | a PUBACK of an id ends exactly the client's message with that id, or nothing, and notes the client |
| BrokerMeaning.RetainedReachSubscriber | main/mqtt_broker.c:755-777 | with no send failing a new subscriber is sent exactly the retained messages its filter matches and the buffer takes, once each, in list order; each parses back to payload and topic, as far as the parser keeps it, with RETAIN set |
| BrokerPackets.SendMeaning | main/mqtt_broker.c:526-565 | a send gets its data out, or loses its client with all it owns and nobody else |
| BrokerPackets.AcceptMeaning | main/mqtt_broker.c:1508-1533 | a new connection takes the first slot without a socket, not connected yet; with none free nothing changes |
| BrokerPackets.StepMeaning | main/mqtt_broker.c:1463-1580 | a packet's step is its dispatch; a connection that breaks loses its client and nobody else |
| BrokerPackets.ForfeitsMeaning | main/mqtt_broker.c:1231-1259 | anything but CONNECT before a CONNECT, SUBSCRIBE or UNSUBSCRIBE that does not parse, PUBLISH or SUBSCRIBE without admission, and DISCONNECT lose the sender, with all it owns and nobody else |
| BrokerPackets.PingMeaning | main/mqtt_broker.c:1198-1205 | PINGREQ is answered with the two bytes of PINGRESP and noted; packets of other types change nothing |
| BrokerPackets.PublishMeaning | main/mqtt_broker.c:1151-1196 | the PUBLISH built of any topic, payload and QoS: QoS 2 is dropped; QoS 0 and 1 are spread at their own QoS and noted, and at QoS 1 the PUBACK with its id is the last thing sent, unless the publisher is lost |
| BrokerPackets.PublisherIsAcknowledged | main/mqtt_broker.c:1181-1195 | whatever became of the fanout, the last thing sent for a QoS-1 PUBLISH is the publisher's PUBACK, which parses back to its id |
| BrokerPackets.PublishArrives | main/mqtt_broker.c:1075-1196 | from the publisher's bytes to the subscribers': one packet for each subscription reached, at QoS 1 only where both ask for it, each parsing back to the message at its level unless a QoS 0 comes after a QoS 1, and the PUBACK last |
| BrokerPackets.LocalArrives | main/mqtt_broker.c:1075-1129 | a local publish reaches the same subscriptions the same way |
| BrokerPackets.PublishIsRetained | main/mqtt_broker.c:1080-1083 | a PUBLISH with RETAIN replaces the retained message of its topic, any other leaves the retained messages alone |
| BrokerPackets.OthersAreRetained | main/mqtt_broker.c:652-673 | of all other steps only a local publish with RETAIN and the expiry check change what is retained |
| BrokerSubscribe.SubackMeaning | main/mqtt_parser.c:364-376 | a SUBACK is one packet of type 0x90 with the packet id, high byte first, and the return codes |
| BrokerSubscribe.DeliverySendsPicked | main/mqtt_broker.c:755-777 | for one filter: one packet for each retained message that the filter matches and the buffer takes, in list order, RETAIN set at QoS 0, and nothing else |
| BrokerSubscribe.SubscriberIsAnswered | main/mqtt_broker.c:862-934 | a SUBSCRIBE applies its topics to the map in order and is answered with one SUBACK of their codes and then, topic by topic and only where the code is not 0x80, the retained messages its filter picks |
| BrokerSubscribe.UnsubscriberIsAnswered | main/mqtt_broker.c:936-963 | an UNSUBSCRIBE removes exactly the keys it names and is answered with UNSUBACK |
| BrokerActivity.HeardMeaning | main/mqtt_broker.c:1198-1281 | SUBSCRIBE and UNSUBSCRIBE that parse, PUBLISH that parses and is not of QoS 2, PUBACK and PINGREQ set the time of their sender; no other packet does, and nobody else's time changes |
| BrokerActivity.SessionKeeps | main/mqtt_broker.c:836-842 | over any run from a CONNECT on, the slot of a connected client holds its keep-alive and the time of its last sign of life |
| BrokerActivity.TimedOutExactlyWhenSilent | main/mqtt_broker.c:1308-1323 | over any run a keep-alive check loses a client if and only if it has a keep-alive and no sign of life came within that and ten seconds more |
| BrokerActivity.TalkingClientIsNeverTimedOut | main/mqtt_broker.c:1308-1323 | so a client heard that often is never lost to a check, whatever else happens |
| Retransmission.EnqueueMeaning | main/mqtt_broker.c:969-1012 | refused exactly over 2 MB, with the client's twenty slots taken or out of memory; else a free slot is filled, due in 15 s, under an id not 0 and not in use, where the id counter is left |
| Retransmission.WalkMeaning | main/mqtt_broker.c:1036-1065 | a walk with no send failing leaves what is not due, gives up what was sent again five times, and puts the rest off by 15, 30 and then 60 s and sends each again once, DUP set and otherwise the same, in slot order, and nothing else |
| BrokerRuns.RunKeeps | main/mqtt_broker.c:1463-1580 | the invariant holds in every reachable state, for all network and memory failures |
| BrokerRuns.TablesAreConsistent | main/mqtt_broker.c:485-515 | in every reachable state: connected = authenticated and on a socket, ids of connected clients distinct, subscriptions and messages owned by connected clients, no filter twice a client, packet ids nonzero and distinct a client |
| BrokerRuns.InflightBytesExact | main/mqtt_broker.c:969-1012 | in every reachable state the byte counter is the exact sum over active slots and at most 2 MB |
| BrokerRuns.CounterExactlyWithoutReconnects | main/mqtt_broker.c:842 | the connection counter is the number of connected slots if and only if no CONNECT was accepted on a connected slot; otherwise it is off by their number |
| BrokerExamples.SecondConnectCountsTwice | main/mqtt_broker.c:842 | one connection that sends CONNECT twice leaves the counter at 2 with one client connected |
| BrokerRuns.MessagesAreConserved | main/mqtt_broker.c:969-1065 | enqueued = in flight + acknowledged + abandoned + too large + dropped with their client |
| BrokerRuns.MessageLife | main/mqtt_broker.c:1017-1065 | every message is sent once with DUP clear and at most five times with DUP set, otherwise identical, and is abandoned only after all five and 240 s after it was enqueued |
| BrokerRuns.AbandonedInTime | main/mqtt_broker.c:1036-1065 | walked at least every D ms, a message is abandoned within 240000 + 6D ms |
| BrokerWorld.RetainingIsDeliverable | main/mqtt_broker.c:680-749 | every step leaves only retained messages that a later SUBSCRIBE can be sent |
| BrokerWorld.RetainedFollowTheRun | main/mqtt_broker.c:1075-1083 | over every run of the broker the retained messages are those of a run of their store, made of the run's retained publishes and expiry checks |
| BrokerWorld.TablesFollowTheRun | main/mqtt_broker.c:1463-1700 | and the tables are those of a run of the broker |
| BrokerWorld.WorldKeeps | main/mqtt_broker.c:1463-1700 | so in every reachable state the invariant holds and every retained message can be delivered |
| BrokerWorld.RetainedIsTheLastWord | main/mqtt_broker.c:680-749 | over every run of the broker each retained message is the last one kept for its topic, whoever published it, and no topic is retained twice |
| BrokerStream.DigestSplit | main/mqtt_broker.c:1215-1304 | handling the packets of a stream cut in two is handling those of the whole |
| BrokerStream.ChunkingDoesNotShow | main/mqtt_broker.c:1215-1304 | however a client's bytes are cut into reads, tables, retained messages, everything sent and the bytes left over are those of one read |
| BrokerStream.OnePacketIsHandled | main/mqtt_broker.c:1215-1304 | the bytes of one whole packet are handled as the packet of their type, and none are left over |
| BrokerStream.TypesMeaning | main/mqtt_broker.c:1232-1296 | which handler gets a packet, by the high half of its first byte (section 2.2.1 of MQTT 3.1.1) |
| BrokerStream.KindsMeaning | main/mqtt_broker.c:1232-1296 | a built PUBLISH, a PUBACK, PINGREQ and DISCONNECT reach their own handlers |
| BrokerStream.MalformedIsLost | main/mqtt_broker.c:1225-1229 | a malformed length loses the client, and changes nothing retained |
| FanoutLaws.FanoutWrites | main/mqtt_broker.c:1100-1129 | the packets of a fanout are one for each subscription reached, in slot order, each what the shared buffer holds at its turn |
| FanoutLaws.AudienceMeaning | main/mqtt_broker.c:1100-1106 | whom a publish reaches: in slot order, each once, exactly the active subscriptions whose client is on a socket and connected and whose filter matches, for a valid filter by the rules of the standard less what the matcher refuses |
| DeliveryLevels.LevelsOnlyOnRequest | main/mqtt_broker.c:1109-1111 | nobody gets QoS 1 unless publisher and grant both ask for it |
| DeliveryLevels.EnqueueLoad | main/mqtt_broker.c:969-1012 | an enqueue takes the message exactly when the load of the table allows, and the load afterwards has one slot of that client and the message's bytes less |
| DeliveryLevels.ServedAsAskedIffRoom | main/mqtt_broker.c:975-1012 | while memory lasts everyone is served at the level asked for if and only if the table has bytes for all who ask and, client by client, slots |
| FanoutLaws.PlanServesAudience | main/mqtt_broker.c:1101-1129 | each subscription reached gets exactly one delivery, at QoS 1 if and only if publisher and grant ask for it and the table, as it stood before the call less what the earlier turns took, has room and memory |
| FanoutLaws.NobodyDegradedIffRoom | main/mqtt_broker.c:1109-1129 | the same of a publish and the state before it: no subscriber is degraded to QoS 0 if and only if the table has room for the whole audience |
| FanoutLaws.FanoutIntactIffOrdered | main/mqtt_broker.c:1100-1129 | one packet for each subscription reached, and all are the packets they should be if and only if, in the levels computed from the state before the call, no QoS 0 comes after a QoS 1 |
| FanoutLaws.EachClientGetsItsShare | main/mqtt_broker.c:1100-1129 | with no send failing each client is sent as many packets as it has subscriptions that the message reaches |
| FanoutLaws.FanoutLosesNobody | main/mqtt_broker.c:1100-1129 | and nobody is lost |
| FanoutLaws.QoS0PublishIsIntact | main/mqtt_broker.c:1109-1115 | a QoS-0 publish is always delivered intact |
| FanoutLaws.QoS1PublishIntactIffGrantsOrdered | main/mqtt_broker.c:1100-1129 | with room for the audience a QoS-1 publish is intact if and only if, in slot order, no matching grant of QoS 0 follows one of QoS 1; room and grants are read off the state before the call |
| BrokerExamples.BrokenFanoutIsReachable | main/mqtt_broker.c:1100-1129 | from power-up a client that subscribes at QoS 1 and then at QoS 0 receives a QoS-1 publish broken |
| FanoutLaws.IdealParses | main/mqtt_broker.c:1085-1090 | an intact delivery parses back to payload and topic, as far as the parser keeps a topic, with RETAIN clear, at its QoS and id |
| TimerBlob.ParseJsonString | main/timers.c:165-234 | length, contents and end of the string, or failure, as the grammar says; never past the buffer |
| TimerBlob.SkipJsonValue | main/timers.c:251-279 | the cursor ends where the skipping function says, or fails with it |
| TimerBlob.ReadSlot | main/timers.c:282-351 | the slot and the end of its text, or failure, as the parsing function has them |
| TimerBlob.TimerStore.constructor | main/timers.c:537-541 | sixteen blank slots and the master switch on |
| TimerBlob.TimerStore.ReadBlob | main/timers.c:355-416 | succeeds exactly when the text parses, and then the slots and the flag are those of the text |
| TimerBlob.TimerStore.Load | main/timers.c:537-581 | a text that does not parse leaves the defaults and nothing half-read |
| TimerBlob.TimerStore.Serialize | main/timers.c:466-531 | fails exactly when text and terminator leave no byte of the buffer over; otherwise the buffer holds the whole text |
| TimerBlob.AppendJsonString | main/timers.c:423-462 | the quoted string is appended whole or the step fails for want of room |
| TimerLaws.StringRoundTrip | main/timers.c:165-234 | a quoted string of any bytes, NUL and control bytes included, reads back as itself |
| TimerLaws.NumberRoundTrip | main/timers.c:238-248 | a printed number reads back as itself |
| TimerLaws.DaysRoundTrip | main/timers.c:87-107 | a printed day mask reads back as itself |
| TimerLaws.SkipNested | main/timers.c:251-279 | inside brackets a whole JSON value is passed over, to any depth |
| TimerLaws.SkipsOneValue | main/timers.c:251-279 | skipping takes exactly one well-formed JSON value of any kind and nesting |
| TimerRoundTrip.ObjectRoundTrip | main/timers.c:282-351 | an object of well-typed members, in any order and spacing, is read member by member and to its end |
| TimerRoundTrip.UnknownMemberIsInvisible | main/timers.c:340-351 | an unknown key of at most 15 bytes with any well-formed value, anywhere in a slot, changes neither the slot nor where reading ends |
| TimerRoundTrip.SlotTextIsObject | main/timers.c:478-521 | the printed slot is such an object |
| TimerRoundTrip.SlotRoundTrip | main/timers.c:282-351 | a printed slot parses back to itself, whatever follows |
| TimerRoundTrip.BlobRoundTrip | main/timers.c:355-531 | for every sixteen valid slots and flag the printed store parses back to the same slots and flag |
| TimerStorable.LoadedIsStorable | main/timers.c:282-416 | whatever text is loaded, every slot it yields is in range and within its buffers |
| TimerStorable.BlobHasNoNul | main/timers.c:466-531 | the printed store is a C string even with NULs in payloads |
| TimerNames.EscapesMeaning | main/timers.c:165-234 | the eight escapes of one letter (section 7 of RFC 8259) |
| TimerNames.CodePointMeaning | main/timers.c:165-234 | an escape of four hex digits is its code point in UTF-8, or refused |
| TimerNames.Utf8Meaning | main/timers.c:165-234 | the bytes of a code point are those of section 3 of RFC 3629 |
| TimerNames.NamesMeaning | main/timers.c:297-345 | the short and the long name of each field, and that nothing else names it |
| TimerNames.OneNumber | main/timers.c:298-320 | a number by either name is stored in its field alone, or refused out of its range |
| TimerNames.OneText | main/timers.c:321-339 | a text by either name is stored in its field alone, days as their mask, or refused when it does not fit |
| TimerNames.EntriesMeaning | main/timers.c:378-408 | the master switch and the slots by either name, and a version that changes nothing |
| TimerNames.ExtraSlotsAreDropped | main/timers.c:353-404 | slots beyond the sixteenth are read and dropped |
| TimerSchedule.Scheduler.constructor | main/timers.c:857-866 | empty slots with reset caches |
| TimerSchedule.Scheduler.Set | main/timers.c:728-752 | the slot with its caches reset; no other slot changes |
| TimerSchedule.Scheduler.Sweep | main/timers.c:778-820 | every slot takes one step of the slot function, and which fired |
| TimerSchedule.Scheduler.Tick | main/timers.c:822-855 | sweeps exactly when the clock is set, has not jumped by more than a minute and the master switch is on |
| TimerSchedule.NextFire | main/timers.c:612-644 | 0 exactly when nothing can fire; otherwise the least second after now at which the slot's minute begins on a day of its mask |
| TimerScheduleLaws.SweepMeaning | main/timers.c:778-820 | a slot fires exactly when it is due and has not fired in this minute of UTC; the jitter cache never shows |
| TimerScheduleLaws.FiresWithinItsWindow | main/timers.c:782-805 | between edits a slot fires only armed, on a day of its mask and within its window of its minute |
| TimerScheduleLaws.OneShotFiresOnce | main/timers.c:813-818 | a one-shot timer fires exactly at the first sweep at which it is due, so at most once ever |
| TimerScheduleLaws.FiresOncePerDay | main/timers.c:801-810 | in a zone of whole minutes a slot fires at most once a local day |
| TimerScheduleLaws.TwoFiresInOneLocalMinute | main/timers.c:806-810 | in any other zone two sweeps a second apart fire twice |
| TimerScheduleLaws.DedupHoldsExactlyForWholeMinutes | main/timers.c:806-810 | one fire a local day, for all slots and runs, if and only if the zone is whole minutes from UTC |
| TimerScheduleLaws.RepeatingFiresOnceOnEachDueDay | main/timers.c:778-820 | a repeating timer fires once on each local day with a sweep at which it is due, and on no other day |
| TimerScheduleLaws.SteadyClockMissesNoDay | main/timers.c:822-855 | while the clock moves by at most a minute a sweep, no day of the mask is missed |
| TimerScheduleLaws.PredictionIsFirstDue | main/timers.c:612-644 | without jitter the predicted second is due and no second of a later minute before it is |
| TimerScheduleLaws.PredictionComesTrue | main/timers.c:612-644 | sweeps in later minutes are silent until the predicted second, and a sweep at it fires |
| TimerDays.WeekdayMeaning | main/timers.c:785 | day 0 was a Thursday, and the days of the week follow each other, Sunday first |
| TimerDays.DayOfLetter | main/timers.c:87-98 | a day of the week is on in a parsed mask if and only if its letter is neither '-' nor '0' |
| TimerDays.LettersOfMask | main/timers.c:100-107 | a printed mask shows a day that is on by its initial and any other as '-' |
| TimerDays.SweepByLetters | main/timers.c:778-820 | a sweep fires a slot if and only if it is armed, the letter of the local day is set, the local minute is its own with the day's jitter, and it has not fired in this minute of UTC |
| TimerDays.PredictionByLetters | main/timers.c:612-644 | the predicted second is the first after now at which the minute begins on a local day whose letter is set |
| TimerDays.NoLetterIsOn | main/timers.c:612-617 | the mask is empty, so that nothing is predicted, if and only if no letter is set |
| TimerDays.JitterVaries | main/timers.c:772-799 | the jitter of two slots and two days, from the hash |
| EchoDetect.Detector.constructor | main/echo_detect.c:95-102 | an empty table |
| EchoDetect.Detector.FindEntry | main/echo_detect.c:56-64 | the first entry of the topic, or -1 when there is none |
| EchoDetect.Detector.FindFreeSlot | main/echo_detect.c:66-91 | the end of the table, else the undetected entry with the oldest window, else the oldest detection |
| EchoDetect.Detector.Track | main/echo_detect.c:104-155 | the table after a publish, and whether the topic is flagged now |
| EchoDetect.Detector.Reset | main/echo_detect.c:157-167 | every entry cleared, every topic kept |
| EchoLaws.FlaggedReallyHadThem | main/echo_detect.c:129-146 | a flagged topic really had N publishes within M seconds |
| EchoLaws.EnoughIsFlagged | main/echo_detect.c:129-146 | any 2N - 2 publishes within M seconds (N for N up to 2), or 2N - 1 since a clearing, leave the topic flagged |
| EchoLaws.OneFewerIsMissedExactlyWithAWindow | main/echo_detect.c:133-140 | for every N from 3 on (2 after a clearing) one fewer can go unseen, if and only if M is not 0 |
| EchoLaws.SlidesExactlyForSmallCounts | main/echo_detect.h:4-6 | flagged if and only if N publishes fell within M seconds, for all histories, exactly when N is at most 2 (at most 1 after a clearing) or M is 0 |
| EchoLaws.AgainKeeps | main/echo_detect.c:129-146 | the 16-bit count and the window start stay true to the history, wrap-around and the empty window of a clearing included |
| EchoLaws.PublishKeeps | main/echo_detect.c:104-146 | one topic's history grows, a displaced one is dropped, all others stay |
| EchoLaws.EvictsFlaggedLast | main/echo_detect.c:66-91 | a topic is displaced only with 32 tracked: a flagged one only when all are, and then the earliest detection; else the unflagged one whose window began first |
| EchoLaws.StampZeroNeverAnswers | main/echo_detect.c:143-149 | while the wall clock reads 0 echo_track answers false to every publish of a run, however many there are |
| EchoLaws.AnswerIsNewsExactlyWhenUnflagged | main/echo_detect.c:143-149 | the answer of echo_track is that the topic was just detected if and only if it was not flagged before |
| EchoLaws.SecondAnswerIsNoNews | main/echo_detect.c:143-149 | with N of 1 two publishes are both answered true, and the second is no news |
| EchoLaws.DetectionOverRuns | main/echo_detect.c:104-167 | over every run of publishes and clearings tracked topics are distinct, a flagged one had its publishes, one that had enough is flagged, and for N of 0 the second publish flags, or the first after a clearing |
| RateLimit.Limiter.constructor | main/ntp.c:206 | 32 free slots |
| RateLimit.Limiter.Allow | main/ntp.c:478-513 | the table and the answer, with the slot taken by a new source |
| RateLimit.ElevenTakeLonger | main/ntp.c:486-496 | of one resident source at most ten requests are served in any 1000 ms |
| RateLimit.ServedMeaning | main/ntp.c:486-496 | a source is refused exactly when its last ten services followed each other within a second and the last is at most a second ago; a refusal changes nothing |
| RateLimit.StepKeeps | main/ntp.c:478-513 | last service, count and total stay true to each source's history |
| RateLimit.DisplacesOldest | main/ntp.c:498-512 | a source is displaced only when no slot is free, and none was served before it |
| RateLimit.RateHoldsOverRuns | main/ntp.c:478-513 | over every run of requests resident addresses are distinct, answers follow the histories, and the rate holds |
| RateLimit.SteadySourceServedExactlyWhenSlow | main/ntp.c:478-513 | a source at a steady pace is served every time if and only if it leaves more than 1000 ms between requests or sends at most ten |
| DriftRing.Ring.constructor | main/ntp.c:97-100 | no samples, estimate unknown |
| DriftRing.Ring.Record | main/ntp.c:104-142 | the ring holds exactly the last eight samples and the estimate is that of the log of all of them |
| DriftRing.UnknownExactlyWithoutBaseline | main/ntp.c:111-129 | unknown if and only if there are fewer than two samples or the baseline is under 60 s; otherwise within 500 ppm |
| DriftRing.SlopeMeaning | main/ntp.c:130-136 | the slope is the gain of the wall clock in parts per million of the time passed, cut toward zero |
| DriftRing.ClampedSlopeExactlyWhenItFits | main/ntp.c:130-141 | the estimate is the clamped truncated slope if and only if the slope survives the cast to 32 bits |
| DriftRing.SteppedClockLooksPerfect | main/ntp.c:136 | a step of the wall clock that the cast hides |
| DriftRing.OnlyLastEightCount | main/ntp.c:115-121 | samples before the last eight have no influence |
| DriftRing.FindsConstantDrift | main/ntp.c:130-141 | a constant drift of up to 500 ppm is found exactly |

## Left out

- Sockets, `select`, tasks, queues, mutexes, flash and logging: time, received bytes, send and allocation outcomes are inputs. Time is read once a step and never goes back, so the wrap of the 32-bit tick count after 49.7 days is not modelled.
- Partial writes inside `client_send` (main/mqtt_broker.c:526-565): a send gets all of its data out or loses the client.
- Parsing the bytes of CONNECT, SUBSCRIBE and UNSUBSCRIBE and comparing credentials (main/mqtt_parser.c:96-285): the parsed requests, or the failure to parse, are inputs of the handlers.
- The test hook, the script hook and the `$SYS` topics: they change none of the modelled tables. Local publishes are steps of a run with any topic, payload and QoS that the queue for them takes (main/mqtt_broker.c:230-262).
- The limit of the retained store without PSRAM, which depends on the free heap (main/mqtt_broker.c:583-586): the limit is a parameter.
- Wire.BuildPublish: a body of 2^28 bytes or more is excluded; the source would encode its length into a buffer of four bytes.
- FanoutLaws.FanoutIntactIffOrdered: assumes that both forms of the message fit the buffer and no send fails; with failing sends only the invariants are claimed.
- BrokerStream.ChunkingDoesNotShow: all the reads happen at one time; with time passing between them the keep-alive clock would tell.
- Daylight saving and `mktime`: local time is UTC with a fixed offset. The clock of a run of sweeps does not go back.
- The write to flash after an edit, and the dropped publish when the broker's queue is full (main/timers.c:660-678): a fire is an event.
- EchoLaws.DetectionOverRuns: stamps are positive, the wall clock being set; StampZeroNeverAnswers is the other case.
- EchoDetect.Detector.Track: topics are at most 128 bytes, as the callers ensure; the source stores the untruncated length of a longer one.
- RateLimit.Limiter.Allow: address 0 is never resident; the model lets it take a slot and leave it free, as the source does.
- DriftRing.Ring.Record: asks that the 64-bit product of main/ntp.c:136 does not overflow, as the comment above it does.
- BrokerSubscribe.SubscriberIsAnswered and BrokerPackets.PublishArrives: no send fails; a failing send loses its client (BrokerPackets.SendMeaning) and keeps the invariants.
- The correction of the clock by the drift (main/ntp.c:162-184) is not modelled.
- Embedded scripting, the web portal, WiFi, Ethernet and the SNTP packet itself.
