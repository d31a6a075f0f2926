# TrueMQTT client, verified in Dafny

TrueMQTT is an MQTT 3.1.1 client library. This project models its core and proves what the library relies on:

- **Subscriptions.** Filters live in a tree of nodes keyed by topic level, changed in place, with a flat set of
  filters beside it. `SubscriptionIndex` holds the heap nodes and the loops of `subscribe`, `unsubscribe` and
  `findSubscriptionMatch`; `SubscriptionSpec` reads a tree as a map from paths to callbacks and proves that every
  run of calls delivers exactly what the plain list of live (filter, callback) pairs says; `Topics` compares the
  relation the client computes with section 4.7 of MQTT 3.1.1.
- **Packets.** `Codec` and `Fields` are the bytes: bits, the remaining-length code of section 2.2.3, frames, streams,
  fields, PUBLISH and CONNECT bodies, and what a received packet means. `PacketIO` is the packet buffer, the
  in-place header, and the loops over partial reads and writes, with every possible cut of the stream.
- **Threads.** `SendProtocol` is the application, the reader thread and the writer thread as atomic steps on the
  shared client state, connection state, socket and send queue. `ProtocolSafety` proves what every interleaving
  keeps; `ProtocolWitnesses` shows runs in which the excluded cases really happen.
- **Client.** `Client` is the set of operations under the client mutex, `ClientSpec` the publish queue and the packet
  ids in closed form.
- **Dialing.** `Dialing` is the reader's search for a socket: address order, backoff, and the descriptors opened and
  closed on the way.

`Common` holds helpers. `dafny verify dfyconfig.toml` checks everything. Operating-system answers (`getaddrinfo`, `socket`, `connect`,
`select`, `getsockopt`, `recv`, `send`) and clocks are inputs of the model, or choices a method makes and its callers
learn nothing about.

## Where a natural claim is false

The model follows the code; these claims fail, and the project proves exactly when.

- *Delivery follows section 4.7.* It misses `a/#` for topic `a`, adds `a` for topic `a/b`, and adds wildcard filters for
  topics that begin with `$`; nothing else (`Topics.GapToStandard`, with `Topics.GapWitnesses`).
- *Each matching callback runs once.* True in every run exactly for topics without a `+` or `#` level
  (`SubscriptionSpec.DeliveryRefinesListIff`).
- *Unsubscribing removes empty nodes.* Nodes up to the last empty level of a filter stay until the next disconnect.
  After every run the nodes are exactly those with a live filter at or below them and those left by an empty level
  (`SubscriptionSpec.NodeIff`); with nothing live the tree is empty exactly when no filter since the last disconnect
  had an empty level (`SubscriptionSpec.EmptyAgainIff`).
- *Disconnecting cleans the subscriptions*, as `include/TrueMQTT.h` says. The flat set is kept, and a later
  unsubscribe can follow a missing node (`SubscriptionSpec.StaleFilterIsUndefined`); after any run, exactly when
  the filter is in the flat set with no live filter and no left node at or below it
  (`SubscriptionSpec.UnsubscribeUndefinedIff`).
- *Every packet can be framed.* True exactly up to 268435455 body bytes (`Codec.FrameRoundTripIff`); a whole stream is
  read back exactly when no packet is longer (`Codec.WholeStreamIff`); strings up to 65535 bytes
  (`Fields.StringRoundTripIff`, `Fields.FieldsRoundTripIff`, `Fields.ConnectRoundTripIff`).
- *CONNECT is the first packet on a socket.* In every interleaving, recovery branches included, true exactly when the
  first packet written was popped after the socket was opened, the writer took up no other packet before CONNECT was
  popped, and CONNECT was not thrown away on STOP (`ProtocolSafety.ConnectComesFirst`). All three exceptions happen
  (`ProtocolWitnesses`); without a recovery branch only a ping can be taken up early
  (`ProtocolSafety.OnlyPingsOvertake`).
- *A CONNECTED client has read a CONNACK on its socket.* With the mutex free it has, exactly unless a recovery branch
  replaced the connection under it, no CONNACK or error has been reported since, and the reader is not about to
  report one (`ProtocolSafety.ClientStates`, `ProtocolWitnesses.RecoveryBreaksTheOrder`).
- *STOP is final.* Exactly the steps of `ProtocolSafety.Overwrites` take it back (`ProtocolSafety.StopIsTakenBackIff`).
- *Stopping closes every descriptor.* True exactly when no connection attempt is pending (`Dialing.Dialer.Stop`).
- *A full publish queue drops a message.* A queue of size 0 that is not DROP pops an empty deque
  (`ClientSpec.UndefinedIffSizeZero`).

## Model

| member | source | states |
|---|---|---|
| Topics.JoinSplit | src/Client.cpp:190-218 | cutting a topic at '/' loses nothing |
| Topics.SplitJoin | src/Client.cpp:190-218 | every list of levels without '/' is the cut of a text |
| Topics.SplitInjective | src/Client.cpp:188-218 | two filters with the same levels are the same string, so a node belongs to one filter |
| Topics.VisitsIsFits | src/Client.cpp:423-470 | for a topic without wildcard levels the walk reaches a filter's node once if its levels fit the first levels of the topic, else never |
| Topics.VisitedTwice | src/Client.cpp:422-456 | a wildcard level in the topic makes the walk reach the filter ending there at least twice |
| Topics.AtMostOneVisitIff | src/Client.cpp:422-470 | no filter is visited twice if and only if the topic has no wildcard level |
| Topics.GapToStandard | src/Client.cpp:423-470 | the exact gap to section 4.7 of MQTT 3.1.1, both directions, for every valid filter and topic |
| Topics.MissesParent | src/Client.cpp:446-470 | for every level `a`, topic `a` does not reach filter `a/#` although the standard says so |
| Topics.AddsChildren | src/Client.cpp:428-431 | for all levels `a` and `b`, topic `a/b` reaches filter `a` although the standard says no |
| Topics.AddsServerTopics | src/Client.cpp:459-470 | every one-level topic that begins with `$` reaches filter `#` although the standard says no |
| Topics.GapWitnesses | src/Client.cpp:423-470 | the three gaps at `a/#` for `a`, `a` for `a/b`, `#` for `$SYS` |
| SubscriptionSpec.InsertSpec | src/Client.cpp:188-221 | subscribing appends the callback to its own path, changes no other path, leaves no dead node |
| SubscriptionSpec.RemoveSpec | src/Client.cpp:253-313 | unsubscribing empties exactly its own path and leaves no dead node but those of empty levels |
| SubscriptionSpec.PruneSpec | src/Client.cpp:293-313 | pruning upwards drops no callback, keeps every node's parent, and leaves only dead nodes of empty levels |
| SubscriptionSpec.DeliverIsSum | src/Client.cpp:410-471 | for every topic, wildcard levels included, each callback runs as often as the list of live pairs and the visits of their filters say |
| SubscriptionSpec.DeliverIsMatching | src/Client.cpp:410-471 | a tree that agrees with a list runs the multiset of callbacks of the fitting pairs |
| SubscriptionSpec.DeliverHasBlock | src/Client.cpp:428-449 | the callbacks of one fitting filter run as one block in their order |
| SubscriptionSpec.StepKeeps | src/Client.cpp:188-223 | every call keeps tree, list and flat set in agreement |
| SubscriptionSpec.RunAgrees | src/Client.cpp:176-325 | after every run the tree holds the live pairs in order, live filters are in the flat set, dead nodes stand for empty levels; without a disconnect no walk misses and the set is exactly the live filters |
| SubscriptionSpec.DeliveryRefinesList | src/Client.cpp:473-487 | after every run, for every topic without wildcard levels, the callbacks run are those of the live pairs that fit, each once |
| SubscriptionSpec.DeliveryKeepsOrder | src/Client.cpp:428-449 | after every run the callbacks of one filter run in subscription order |
| SubscriptionSpec.EarlierDecides | src/Client.cpp:422-470 | of two different filters that fit one topic, exactly one comes first |
| SubscriptionSpec.DeliverInOrder | src/Client.cpp:422-470 | of two filters that fit, the walk runs all callbacks of the earlier one before those of the other |
| SubscriptionSpec.DeliveryOrdersFilters | src/Client.cpp:422-470 | after every run: a filter runs before those below it, and at the first level that differs a literal before "+" before "#" |
| SubscriptionSpec.DeliveryRefinesListIff | src/Client.cpp:410-487 | every run delivers each fitting live pair exactly once if and only if the topic has no wildcard level |
| SubscriptionSpec.RunsTwice | src/Client.cpp:422-456 | for every topic with a wildcard level there is a run in which one callback is run at least twice |
| SubscriptionSpec.WildcardTopicRunsTwice | src/Client.cpp:441-449 | topic "+" runs a callback of filter "+" twice |
| SubscriptionSpec.RunGrows | src/Client.cpp:296-313 | after every run each node lies on the path of a filter since the last disconnect, and every node for an empty level of such a filter is still there |
| SubscriptionSpec.NodeIff | src/Client.cpp:188-313 | after every run a node exists if and only if a live filter lies at or below it, or a filter since the last disconnect has an empty level at or below it |
| SubscriptionSpec.EmptyAgainIff | src/Client.cpp:296-313 | after every run with nothing live, the tree is empty if and only if no filter since the last disconnect has an empty level |
| SubscriptionSpec.SubscribeThenUnsubscribe | src/Client.cpp:188-313 | after every run the two calls give the same tree again if and only if the filter has no live pair and every node up to its last empty level was there before |
| SubscriptionSpec.UnsubscribeUndefinedIff | src/Client.cpp:245-288 | after every run unsubscribe follows a missing node if and only if the filter is in the flat set with no live filter and no left node at or below it |
| SubscriptionSpec.LeftNodeHidesStaleFilter | src/Client.cpp:296-313 | the node `a/` leaves behind makes unsubscribing a stale `a` defined |
| SubscriptionSpec.StaleFilterIsUndefined | src/Connection.cpp:501-507 | subscribe, disconnect, unsubscribe of any filter follows a missing node |
| SubscriptionIndex.Index.constructor | src/ClientImpl.h:80-81 | an empty tree and an empty set |
| SubscriptionIndex.Index.AddChild | src/Client.cpp:203-211 | a new empty node below its parent, every link kept |
| SubscriptionIndex.Index.TryEmplace | src/Client.cpp:203-211 | one level grown in place, nothing else changed |
| SubscriptionIndex.Index.Subscribe | src/Client.cpp:188-223 | the loop grows the path, appends the callback and notes the filter, as the specification step says |
| SubscriptionIndex.Index.Walk | src/Client.cpp:256-288 | the walk succeeds if and only if the filter's node exists, and lists every part with its node |
| SubscriptionIndex.Index.Erase | src/Client.cpp:299-303 | the erased child exists; exactly one node goes |
| SubscriptionIndex.Index.PruneAt | src/Client.cpp:297-309 | one turn of the bookkeeping loop does its share of the pruning |
| SubscriptionIndex.Index.PruneUpwards | src/Client.cpp:296-313 | the whole loop is the specified pruning |
| SubscriptionIndex.Index.Unsubscribe | src/Client.cpp:245-315 | not subscribed, removed, or a missing node, as the specification step says |
| SubscriptionIndex.Index.FindSubscriptionMatch | src/Client.cpp:410-471 | the callbacks run, in order, are those of the specified walk |
| SubscriptionIndex.Index.FindPart | src/Client.cpp:423-438 | one branch of the walk |
| SubscriptionIndex.Index.Clear | src/Connection.cpp:501-504 | the tree is emptied, the flat set kept |
| Codec.OrDisjoint | src/Packet.cpp:115-115 | or-ing a value below 2^k with one shifted by k adds them |
| Codec.ParseEncodedLength | src/Packet.cpp:107-126 | the emitted length code is read back, with what follows untouched |
| Codec.EncodedLengthIsShortest | src/Packet.cpp:267-277 | no accepted code is shorter than the emitted one, and one as short is the emitted one |
| Codec.StandardLengths | src/Packet.cpp:267-277 | the codes of section 2.2.3: the number 321 and both ends of the four ranges of its table |
| Codec.RejectedIff | src/Packet.cpp:94-126 | a frame is rejected if and only if its type is 0 or 15 or four length bytes have the high bit set |
| Codec.GotIs | src/Packet.cpp:83-145 | a frame got is what the bytes say: type and flags, a length, that many bytes, and the rest untouched |
| Codec.TooLongIff | src/Packet.cpp:108-126 | a length is rejected if and only if four bytes all have the high bit set |
| Codec.LengthSizes | src/Packet.cpp:261-261 | the thresholds 127, 16383, 2097151 and 268435455 are exactly where the code grows by a byte |
| Codec.HeaderFits | src/Packet.cpp:257-277 | the header ends exactly at the body if and only if the body is at most 268435455 bytes |
| Codec.FrameRoundTrip | src/Packet.cpp:87-145 | one frame sent is read back, the rest of the stream untouched |
| Codec.OversizedIsRejected | src/Packet.cpp:257-277 | a longer body overwrites its own beginning and the receiver rejects the frame |
| Codec.FrameRoundTripIff | src/Packet.cpp:257-277 | the round trip holds if and only if the body is at most 268435455 bytes |
| Codec.OversizedCut | src/Packet.cpp:257-277 | no beginning of a longer body's frame is ever taken for a frame |
| Codec.FrameCutStarves | src/Packet.cpp:87-143 | a frame cut anywhere is never mistaken for a frame |
| Codec.SentStreamAppend | src/Packet.cpp:313-324 | packets written one after the other form the stream of them all |
| Codec.StreamRoundTrip | src/Packet.cpp:87-145 | for every list of packets of any length, the stream cut after any byte gives exactly the packets that arrived whole before the first oversized one |
| Codec.WholeStreamIff | src/Packet.cpp:87-145 | a whole stream gives back the packets sent if and only if none is oversized |
| Fields.Uint16RoundTrip | src/Packet.h:59-95 | 16-bit numbers are read back |
| Fields.StringRoundTripIff | src/Packet.h:70-112 | a string is read back if and only if it is at most 65535 bytes |
| Fields.ReadField | src/Packet.h:76-112 | every read, failed ones included, leaves the offset inside the buffer and never moves it back |
| Fields.ReadFieldIs | src/Packet.h:76-112 | a read succeeds if and only if the field lies inside the buffer, with the value sections 1.5.2 and 1.5.3 give it |
| Fields.FieldsRoundTripIff | src/Packet.h:54-118 | any sequence of fields is read back with the same shapes if and only if its strings are at most 65535 bytes each |
| Fields.ParsePublishIs | src/Packet.cpp:177-187 | the topic is a string as section 1.5.3 has it, the message the rest |
| Fields.PublishRoundTripIff | src/Packet.cpp:177-187 | topic and message are recovered if and only if the topic is at most 65535 bytes |
| Fields.UnderstoodIs | src/Connection.cpp:105-117 | the packets understood are those before the first refused one, each for what it means |
| Fields.RequestRoundTripIff | src/Packet.cpp:392-424 | an independent reader of sections 3.8 and 3.10 recovers packet id, filter and QoS if and only if the filter is at most 65535 bytes |
| Fields.PublishedIsUnderstoodIff | src/Packet.cpp:177-187 | a list of messages is understood as published, each in its turn, if and only if every topic is at most 65535 bytes |
| Fields.PublishedStreamIff | src/Packet.cpp:83-187 | the stream of a list of messages is understood as published if and only if every topic is at most 65535 bytes and no packet is oversized |
| Fields.ConnectRoundTripIff | src/Packet.cpp:329-364 | an independent parser of section 3.1 of MQTT 3.1.1 recovers clean session, keep-alive, client id and the will, present exactly when a will topic is set, if and only if the strings written are at most 65535 bytes each |
| PacketIO.Packet.WriteText | src/Packet.h:70-74 | appends the string field |
| PacketIO.Packet.WriteU16 | src/Packet.h:59-63 | appends the 16-bit field |
| PacketIO.Packet.ReadU8 | src/Packet.h:76-84 | reads as specified, offset included |
| PacketIO.Packet.ReadU16 | src/Packet.h:86-95 | reads as specified, offset included |
| PacketIO.Packet.ReadText | src/Packet.h:97-112 | reads as specified, offset included, also after a string cut short |
| PacketIO.Packet.ReadRemaining | src/Packet.h:114-118 | takes everything that remains |
| PacketIO.Packet.WriteLength | src/Packet.cpp:267-277 | the do-while loop lays the length code over the buffer and changes no other byte |
| PacketIO.Packet.SetHeader | src/Packet.cpp:257-277 | from the write offset on the buffer is the frame; body bytes are unchanged up to 268435455 |
| PacketIO.RecvLength | src/Packet.cpp:107-126 | the shift-or loop reads the length of section 2.2.3 and consumes exactly its bytes |
| PacketIO.RecvBody | src/Packet.cpp:130-143 | the body however it is cut into chunks |
| PacketIO.RecvFrame | src/Packet.cpp:83-145 | the frame, or closed, depends on the bytes alone and not on how they are cut |
| PacketIO.ReceiveAll | src/Packet.cpp:83-145 | the framing half of recvLoop, repeated until it fails, gives the frames of the stream |
| PacketIO.SendPacket | src/Packet.cpp:313-324 | partial writes add up to the buffer, unless a write fails, which ends the loop; then a proper beginning of it has gone out |
| PacketIO.Transmit | src/Packet.cpp:249-327 | heading and writing a packet puts its frame on the wire if and only if no write fails, else a proper beginning of it |
| PacketIO.TransmitAll | src/Packet.cpp:249-327 | packets sent one after the other put their stream on the wire if and only if no write fails; the first failure is the last write |
| PacketIO.Exchange | src/Packet.cpp:83-327 | from the sender's packets to the receiver's, however writes and reads are cut: what went out whole before the first oversized packet; when no write fails, all of it if and only if none is oversized |
| PacketIO.Take | src/Packet.cpp:147-242 | for each outcome exactly the packets that lead to it: up, callbacks with which topic and message, subscription failed, refused, nothing |
| PacketIO.TakeSuback | src/Packet.cpp:194-219 | refused below three bytes, subscription failed for a return code above 2, else nothing |
| PacketIO.TakeUnsuback | src/Packet.cpp:221-233 | refused below two bytes, else nothing |
| PacketIO.RecvLoops | src/Connection.cpp:105-117 | recvLoop called until it fails, however the stream is cut: what the whole packets say, up to the first one refused |
| PacketIO.BuildConnect | src/Packet.cpp:329-364 | the CONNECT packet has the specified body |
| PacketIO.BuildConnectFlags | src/Packet.cpp:335-346 | the flag byte: clean session alone (2) without a will topic, plus the will bit (6), plus will-retain (38) when asked |
| PacketIO.BuildPublish | src/Packet.cpp:375-390 | the PUBLISH packet has the specified flags and body |
| PacketIO.BuildSubscribe | src/Packet.cpp:392-409 | the SUBSCRIBE packet has type 8, flags 2 and the specified body |
| PacketIO.BuildUnsubscribe | src/Packet.cpp:411-427 | the UNSUBSCRIBE packet has type 10, flags 2 and the specified body |
| PacketIO.BuildPing | src/Packet.cpp:366-373 | the PINGREQ packet is empty |
| PacketIO.TakePublish | src/Packet.cpp:177-187 | topic and message, or malformed |
| PacketIO.TakeConnack | src/Packet.cpp:149-174 | the connection is up if and only if the second byte is there and zero |
| ProtocolSafety.ExclusiveApp | src/Client.cpp:122-154 | application steps keep the mutex exclusive and DISCONNECTED tied to the connection |
| ProtocolSafety.QueueApp | src/Packet.cpp:249-295 | application steps keep the order and the bound of the send queue |
| ProtocolSafety.QueueSession | src/Packet.cpp:279-290 | the reader's pushes keep the order and the bound |
| ProtocolSafety.QueueWriter | src/Connection.cpp:141-162 | the writer's pops keep the order and the bound |
| ProtocolSafety.PlacesReader | src/Connection.cpp:65-139 | each place of the reader goes with the connection states that lead there |
| ProtocolSafety.SessionsEnding | src/Connection.cpp:119-128 | SOCKET_ERROR handling takes the client out of CONNECTED before it clears the queue |
| ProtocolSafety.GreetedReader | src/Connection.cpp:422-433 | the CONNECT of a new socket counts as lost only while nothing may be sent |
| ProtocolSafety.GreetedWriter | src/Connection.cpp:141-191 | whatever the writer is about to send on the newest socket before its CONNECT was popped is recorded |
| ProtocolSafety.GuardedReader | src/Connection.cpp:422-433 | without recovery a CONNECT pushed for a new socket is alone in the queue |
| ProtocolSafety.GuardedWriter | src/Connection.cpp:141-191 | without recovery only pings stand before CONNECT and the writer pops nothing else before it |
| ProtocolSafety.AnsweredWriter | src/Packet.cpp:297-327 | a popped CONNECT is written, still held, thrown away on STOP, or the socket takes no more |
| ProtocolSafety.WirePut | src/Packet.cpp:313-324 | a write that is the first on its socket is CONNECT or has one of the three excuses |
| ProtocolSafety.NumberedWriter | src/Packet.cpp:297-327 | each CONNECT is in at most one of queue, writer, wire and discarded ones, popped no earlier than its socket was opened |
| ProtocolSafety.OvertakenWriter | src/Packet.cpp:297-327 | on a socket for which another packet was taken up before CONNECT, that packet goes out first or nothing does |
| ProtocolSafety.StepKeepsInv | src/Connection.cpp:65-201 | every step of every party keeps the whole invariant |
| ProtocolSafety.RunKeepsInv | src/Connection.cpp:65-201 | so does every run |
| ProtocolSafety.ReachableInv | src/Connection.cpp:65-201 | every reachable state satisfies it |
| ProtocolSafety.QueueIsBounded | src/Packet.cpp:249-295 | in every interleaving the queue holds at most `m_send_queue_size` + 1 data packets |
| ProtocolSafety.WriterKeepsOrder | src/Connection.cpp:141-191 | data is popped in acceptance order, each packet at most once |
| ProtocolSafety.ClientStates | src/Client.cpp:327-374 | with the mutex free, DISCONNECTED if and only if there is no connection; and a CONNACK with code 0 has been read on the newest socket of a CONNECTED client if and only if no recovery branch carried CONNECTED over or the client is about to be told of a new one |
| ProtocolSafety.NotificationsFindAConnection | src/Client.cpp:327-374 | connectionStateChange never runs on a disconnected client |
| ProtocolSafety.QueueEmptyBeforeConnect | src/Connection.cpp:119-128 | the queue is empty between clearing it and pushing CONNECT, unless a recovery branch carried CONNECTED over |
| ProtocolSafety.ConnectHasNoExcuse | src/Packet.cpp:297-327 | a CONNECT written to its socket was popped after the socket was opened and not thrown away, and if it is the first packet no other was taken up before it |
| ProtocolSafety.ConnectComesFirst | src/Connection.cpp:422-433 | in every interleaving, recovery included, the first packet on a socket is CONNECT if and only if it was popped after the socket was opened, no other packet was taken up before CONNECT, and CONNECT was not thrown away |
| ProtocolSafety.OnlyPingsOvertake | src/Packet.cpp:43-49 | without recovery the packet taken up before CONNECT is a ping |
| ProtocolSafety.ConnectComesFirstPlain | src/Connection.cpp:422-433 | with pop and write as one step, no packet taken up early and no discard it is CONNECT |
| ProtocolSafety.StopIsTakenBackIff | src/Connection.cpp:65-201 | exactly eleven stores take STOP back |
| ProtocolSafety.StopIsObeyed | src/Connection.cpp:85-139 | every check that finds STOP leads its thread to its end |
| ProtocolWitnesses.StalePacketComesFirst | src/Packet.cpp:297-316 | a packet popped on one socket is written first on the next |
| ProtocolWitnesses.EarlyPingComesFirst | src/Packet.cpp:43-49 | a ping pushed ahead of a queued CONNECT goes out first |
| ProtocolWitnesses.DroppedPingIsNoExcuse | src/Packet.cpp:43-49 | a ping pushed ahead of CONNECT and thrown away leaves CONNECT the first packet |
| ProtocolWitnesses.DiscardedConnect | src/Packet.cpp:167-174 | STOP overwritten by a second CONNACK lets data out without CONNECT |
| ProtocolWitnesses.BoundIsAttained | src/Packet.cpp:251-255 | the queue bound is attained |
| ProtocolWitnesses.RecoveryBreaksTheOrder | src/Client.cpp:226-231 | after a recovery branch the client is CONNECTED without a CONNACK and data precedes CONNECT |
| ClientSpec.FifoKeepsNewest | src/Client.cpp:389-407 | FIFO holds the newest messages, as many as fit |
| ClientSpec.LifoKeepsOldestAndNewest | src/Client.cpp:396-407 | LIFO holds the oldest size - 1 messages and the newest |
| ClientSpec.UndefinedIffSizeZero | src/Client.cpp:384-403 | an empty deque is popped if and only if the size is 0 and the type is not DROP |
| ClientSpec.IdClosedForm | src/Packet.cpp:398-404 | the k-th packet id in closed form despite the 16-bit wrap-around |
| ClientSpec.IdsRepeatIff | src/Packet.cpp:417-423 | ids are 1 to 65535, and two are equal if and only if their sends are a multiple of 65535 apart |
| Client.Connection.Send | src/Packet.cpp:249-295 | accepted as the last of the queue if and only if the queue was found no longer than the limit; what is queued is the newest part of what was accepted |
| Client.PublishedIs | src/Client.cpp:357-365 | one PUBLISH per queued message, each in its place and unchanged |
| Client.SubscribedIs | src/Client.cpp:346-356 | one SUBSCRIBE per filter, each in its place, with ids k mod 65535 plus one |
| Client.BeforeIs | src/ClientImpl.h:80-80 | the order of the flat set: a proper beginning first, else the first character that differs |
| Client.Impl.constructor | src/Client.cpp:37-52 | a fresh client is disconnected, without connection, callbacks or queued messages |
| Client.Impl.Connect | src/Client.cpp:122-137 | a disconnected client gets a new connection, others are unchanged |
| Client.Impl.Drop | src/Connection.cpp:501-507 | tree, publish queue and connection go, the flat set stays |
| Client.Impl.Disconnect | src/Client.cpp:139-154 | the client ends disconnected, with the tree cleared |
| Client.Impl.Publish | src/Client.cpp:156-174 | refused, queued as specified, or handed to the connection, by state; refused when connected if and only if the send queue was found too long |
| Client.Impl.TakeId | src/Packet.cpp:398-404 | the next id of the specified sequence |
| Client.Impl.Subscribe | src/Client.cpp:176-233 | the step on tree and set; one SUBSCRIBE with the next id exactly when connected and not refused, nothing else sent; refused if and only if the send queue was found too long, which loses every callback but keeps the filters |
| Client.Impl.Unsubscribe | src/Client.cpp:235-325 | the step on tree and set; one UNSUBSCRIBE with the next id exactly when connected, subscribed and not refused, nothing else sent; refused if and only if the send queue was found too long, with a new connection |
| Client.Impl.MessageReceived | src/Client.cpp:473-487 | nothing unless connected, then the callbacks of the live pairs that fit |
| Client.Impl.SendSubscribe | src/Packet.cpp:393-410 | one SUBSCRIBE with the next id, refused if and only if the send queue was found too long |
| Client.Impl.SendUnsubscribe | src/Packet.cpp:411-427 | one UNSUBSCRIBE with the next id, refused if and only if the send queue was found too long |
| Client.Impl.Reconnect | src/Client.cpp:225-231 | tree, publish queue and connection go, a new connection without packets comes |
| Client.Impl.RestoreSubscriptions | src/Client.cpp:346-356 | one SUBSCRIBE per filter of the flat set in ascending order with consecutive ids, or a proper beginning of them when one is refused |
| Client.Impl.FlushPublishes | src/Client.cpp:357-365 | the queued publishes in order, cut if and only if one finds the send queue too long, and there |
| Client.Impl.ConnectionUp | src/Client.cpp:327-367 | the flush: every live filter subscribed, then the publish queue in order, which ends empty; it stops short exactly where a check finds the send queue too long |
| Client.Impl.ConnectionDown | src/Client.cpp:368-373 | the client is connecting again |
| Client.EveryLiveFilter | src/Client.cpp:346-349 | subscribing the flat set covers every filter with a live callback |
| Dialing.InterleavePositions | src/Connection.cpp:250-267 | the place of every IPv6 and IPv4 address; both families fill the list in their own order |
| Dialing.SplitFamilies | src/Connection.cpp:232-248 | the addresses of each family in order, others dropped |
| Dialing.OfFamilyInOrder | src/Connection.cpp:232-248 | a family's list holds exactly its addresses in their order |
| Dialing.OrderAddresses | src/Connection.cpp:232-267 | the address list is the interleave |
| Dialing.BackoffClosedForm | src/Connection.cpp:95-100 | the wait after k waits is the initial one times 2^k, at most the maximum; for k = 0 if and only if the initial one is at most the maximum |
| Dialing.SurvivorsInOrder | src/Connection.cpp:365-381 | the sockets left are exactly those without error, in their order |
| Dialing.ChosenIsFirstUsable | src/Connection.cpp:383-394 | the chosen socket is the first one writable and without error, none if and only if there is none |
| Dialing.Dialer.constructor | src/Connection.cpp:19-31 | no descriptor open, no wait yet |
| Dialing.Dialer.Resolve | src/Connection.cpp:203-294 | the new address list, tried from its beginning, or failure |
| Dialing.Dialer.TryNextAddress | src/Connection.cpp:440-494 | the next address, each once per resolve; the new socket is tracked with it or closed |
| Dialing.Dialer.DropBroken | src/Connection.cpp:365-388 | exactly the broken sockets are closed and forgotten; the first writable one left is found |
| Dialing.Dialer.CloseAllBut | src/Connection.cpp:399-406 | every other pending socket is closed, each while open |
| Dialing.Dialer.Adopt | src/Connection.cpp:399-435 | the connected socket is the only open descriptor and the backoff starts again |
| Dialing.Dialer.WaitOn | src/Connection.cpp:325-355 | with no activity the next address is tried; the search ends exactly when there is none and the time-out has passed |
| Dialing.Dialer.PickUsable | src/Connection.cpp:360-437 | with activity the first usable socket is adopted, else the broken ones are dropped |
| Dialing.Dialer.ConnectToAny | src/Connection.cpp:296-438 | a socket is chosen if and only if select worked before STOP and one is usable, and then the first; the search ends exactly when nothing is pending and no address is left, or select found nothing, the attempt is due, no address is left and the time-out has passed |
| Dialing.Dialer.SocketError | src/Connection.cpp:193-201 | no descriptor stays open |
| Dialing.Dialer.Dial | src/Connection.cpp:77-83 | the state after connectToAny, by what the system answers and whether STOP was stored |
| Dialing.Dialer.Receive | src/Connection.cpp:105-117 | the state after recvLoop; a CONNACK overwrites STOP |
| Dialing.Dialer.Retry | src/Connection.cpp:85-103 | STOP, or the next wait |
| Dialing.Dialer.Stop | src/Connection.cpp:130-136 | the chosen socket is closed, pending ones are not: nothing stays open if and only if no attempt is pending |
| Dialing.Dialer.Turn | src/Connection.cpp:65-139 | in every turn, STOP included: open descriptors are exactly the distinct pending sockets and the chosen one; the next state, addresses and sockets by the system's answers; the wait follows the closed form; when the thread ends the pending ones stay open |

## Left out

- SendProtocol: one packet is written in one step, so bytes of one packet on two sockets are not modelled; PacketIO has partial writes on one socket.
- SendProtocol: the writer reports an error to its own connection; the source goes through a pointer that a disconnect clears first.
- Client.Impl.Publish: the length of the send queue at the check is what the other threads left, so callers learn only that it decides; the bound is proved in ProtocolSafety.
- Client.Impl.ConnectionUp: a refused SUBSCRIBE is modelled up to the point where the reader thread would join itself.
- Client.Impl.Unsubscribe: after the walk has followed a missing node (undefined behaviour in the source) nothing more is claimed about the program.
- Dialing.Dialer.Turn: the reader is the sole owner of the descriptors; late errors stored by the writer are in SendProtocol.
- Text is a sequence of characters in the subscription and client modules and a sequence of bytes in the packet modules; encodings are not modelled.
- Keep-alive, attempt spacing and time-outs appear as flags of the environment, without clocks.
- Shutdown liveness, joining and deadlocks are not claimed; the code does not guarantee them.
- setLastWill, setPublishQueue, setSendQueue, callbacks for errors and state changes, and logging are not modelled.
- Races on the plain state field below the level of atomic reads and writes, and the lifetime of string views, are not modelled.
- The examples, the regression program and the build files are not modelled.
