# Verified model of ssl_ros_bridge

A Dafny model of the three parts of `ssl_ros_bridge` that hold its state and its logic.

**Log conversion** (`LogFormat`, `LogReading`, `Log2Bag`, `EndToEnd`). The reader of SSL game logs is
modelled as it is written: a stream with a position and state bits, buffers filled in place, counters
incremented in place. It is proved to agree, on every byte string, with a recursive parser; the parser
is proved to undo a log writer, to behave predictably on every truncation, and to account for every
header it counts. Headers are decoded through reverse iterators, which `ByteCodec` proves to be a
big-endian two's complement decode on a little-endian host.

**Game controller discovery** (`TeamProtocol`, `TeamClients`, `TeamClientNodes`, `BridgeProtocol`,
`MulticastBridges`, `GcSystem`, `GcProperties`). The team client with its handshake and polling loop,
the node that guards it, and the multicast bridge with its two threads are classes whose methods are
proved equal to functions of their state. Those functions are the steps of one transition system, in
which statuses, reconnect requests and replies are in flight and the game controller may answer
anything. The main theorems quantify over every sequence of steps.

**Referee message conversion** (`Proto`, `Ros`, `Conversion`). The conversion of referee messages to
ROS, with the 47-way oneof of game events, an explicit inverse, and exactly what is lost.

## Results that a reader of the code may not expect

- An entry of a type the reader does not know is skipped as a whole only if its payload consists of
  16-byte blocks that do not look like headers of a known type (`UnknownPayloadSkippedIff`); otherwise
  its payload is read as if it were log (`UnknownPayloadCanBeReadAsEntry`).
- One would expect the bridge's flag to equal the client's state once a status published since the last
  change of connectivity has been delivered and no reconnect is under way. It need not: the thread that
  sets the flag may be late, and a bridge that is quiet again then believes in a connection that is gone
  (`LateFlagBreaksAgreement`). Exactly when it does hold can be read off the state in which such a status
  is delivered: the two agree until the next change of connectivity, whatever else happens, if and only
  if the client is connected or the bridge's thread holds no reply that reports success
  (`CurrentStatusSettlesIff`, `CurrentStatusLastsIff`). Without such a status, no status on its way may
  say otherwise either (`AgreementLastsIff`).
- `README.md:106` of the repository says that the bridge only reconfigures a team client that is not
  already connected. The code asks the bridge's own flag, which starts false: a client that connected
  by itself is reconnected by the first datagram, and may lose its connection that way
  (`DiscoveryCanDropConnection`). Nor is a correct flag enough: a request sent while the client was
  disconnected may be served after it has connected and the bridge has learnt of it
  (`QueuedRequestCanDropConnection`). A connected client is left alone until its connectivity changes
  if and only if no request of the bridge is waiting to be served and nothing can still make the bridge
  send one (`NeverReconfiguredWhileConnectedIff`): the bridge receives nothing any more, or no status on
  its way says "disconnected", the bridge has not just found its flag clear, and the flag is set or about
  to be. Once a current status has been delivered, that leaves a request that is waiting or about to be
  sent (`CurrentStatusNeverReconfiguredIff`).
- A reconnect request to a node without any address reports success although nothing was attempted
  (`ReconnectReports`).
- When a request times out and its reply comes in before that of the next request, it answers the next
  request (`LateReplyAnswersNextRequest`). If the two replies together fit the buffer of 1024 bytes,
  requests and replies match again after that; if not, exactly the bytes in excess stay in front of the
  next reply (`StaleFrameAnswersOnce`). If every reply from then on is as late as the first, every result
  is that of the request before (`LateRepliesStayBehind`).
- The ROS messages have fields for the ten deprecated game events, for
  `PlacementFailed.nearest_own_bot_distance` and for `PenaltyKickFailed.reason`; the conversion fills
  none of them (`OneofStaysExclusive`, `PayloadImageIff`). `RefereeImageIff` says exactly which ROS
  messages can come out.
- A timestamp survives exactly when its seconds fit a signed 32-bit number (`TimestampRecoveredIff`),
  and the progress bar of `log2bag` never goes backwards exactly for files whose size times 100 fits
  64 bits (`PercentNeverDropsIff`).

## Assumptions

Payload parsers, delimited framing and the vision conversion are arbitrary functions given as
parameters. `ReadsFirstFrame` is the only property of framing that is used, and only where it is
written. Of the rate object, `Paced` alone is assumed: its k-th sleep ends no earlier than k periods
after it was made; `rclcpp::WallRate` itself is not part of this model. Node callbacks of the team
client run one at a time; the reads and writes of the bridge's flag are atomic, and statuses may be
delivered between its look at the flag and its request. Status messages arrive in order although any of
them may be lost. The file that `log2bag` converts does not change while it runs. A `rclcpp::Time` is
taken to hold signed 64-bit nanoseconds and to wrap its seconds to a signed 32-bit number when it becomes
a message; `rclcpp` is not part of this model, and the "only if" of `TimestampRecoveredIff` depends on it.

## Model

| member | source | states |
|---|---|---|
| ByteCodec.ReverseCopyIsBigEndian | ssl_ros_bridge/src/log2bag/log_reader.cpp:87-103 | Copying n bytes down from `rend() - back` into little-endian storage gives the big-endian number written in those bytes, for every buffer. |
| ByteCodec.CopyInvertsEncode | ssl_ros_bridge/src/log2bag/log_reader.cpp:88-103 | The copy recovers every signed integer from its big-endian two's complement encoding. |
| ByteCodec.EncodeInvertsCopy | ssl_ros_bridge/src/log2bag/log_reader.cpp:88-103 | Encoding what the copy produced gives back the bytes: nothing is lost. |
| LogFormat.DecodeHeaderInvertsEncode | ssl_ros_bridge/src/log2bag/log_reader.cpp:87-103 | Time, type and size are taken from disjoint parts of the header, for every int64 and pair of int32 values. |
| LogFormat.EncodeHeaderInvertsDecode | ssl_ros_bridge/src/log2bag/log_reader.cpp:87-103 | The three fields together determine all 16 bytes. |
| LogFormat.StepReadsEncodedEntry | ssl_ros_bridge/src/log2bag/log_reader.cpp:74-143 | One written entry is read back as itself and its exact length is used, whatever its payload and whatever follows. |
| LogFormat.RoundTrip | ssl_ros_bridge/src/log2bag/log_reader.cpp:42-143 | Parsing a written log gives every entry, in order, and stops at the end of the stream. |
| LogFormat.Truncation | ssl_ros_bridge/src/log2bag/log_reader.cpp:74-114 | A written log cut inside entry k gives the entries before k, plus a counted but undelivered entry k exactly when its header survived, and the matching stop reason. |
| LogFormat.CutKeepsPrefix | ssl_ros_bridge/src/log2bag/log_reader.cpp:42-143 | On any byte string, cutting bytes off the end only cuts results and counts off the end. |
| LogFormat.ReadingWhatWasWritten | ssl_ros_bridge/src/log2bag/log_reader.cpp:42-143 | For every list of entries the caller gets exactly the referee and vision messages that decode, in order and with their times, and every entry is counted. |
| LogFormat.CutLogOpensIff | ssl_ros_bridge/src/log2bag/log_reader.cpp:58-72 | A cut log opens exactly when its 16-byte file header is inside the cut. |
| LogFormat.ReadingWhatWasCut | ssl_ros_bridge/src/log2bag/log_reader.cpp:42-143 | For a log cut at any byte: messages of entries wholly inside the cut, counts of entries whose header is inside. |
| LogFormat.UnknownTypeConsumesHeaderOnly | ssl_ros_bridge/src/log2bag/log_reader.cpp:90-93 | An unrecognised type uses up 16 bytes and nothing else. |
| LogFormat.UnknownPayloadSkippedIff | ssl_ros_bridge/src/log2bag/log_reader.cpp:90-93 | The payload of an unrecognised entry has no effect, whatever follows it, if and only if it is made of 16-byte blocks without a known type. |
| LogFormat.UnknownPayloadCanBeReadAsEntry | ssl_ros_bridge/src/log2bag/log_reader.cpp:90-93 | An entry hidden in such a payload is handed out as part of the log. |
| LogFormat.NegativeSizeStops | ssl_ros_bridge/src/log2bag/log_reader.cpp:100-107 | A recognised header with a negative size is counted and ends the run, whatever follows. |
| LogFormat.ShortTailStops | ssl_ros_bridge/src/log2bag/log_reader.cpp:78-86 | Fewer than 16 bytes give nothing and end the run. |
| LogFormat.KnownCodes | ssl_ros_bridge/src/log2bag/log_reader.hpp:34-43 | Exactly the codes 0 to 6 are known, each with its type, and exactly 3 and 4 are translated. |
| LogFormat.FileHeaderSpellsName | ssl_ros_bridge/src/log2bag/log_reader.cpp:66-71 | The 16 bytes expected at the start are the name of the format and the big-endian version 1. |
| LogFormat.OnlyLastRecordStops | ssl_ros_bridge/src/log2bag/log_reader.cpp:74-143 | Only the last header of a run can be one with a negative size or a payload cut short, and it is exactly then that the run stops for that reason. |
| LogFormat.Conservation | ssl_ros_bridge/src/log2bag/log_reader.cpp:95-142 | Refbox2013 and Vision2014 counts equal entries handed out plus parse failures plus at most one lost final payload. |
| LogFormat.CountsSumToHeaders | ssl_ros_bridge/src/log2bag/log_reader.cpp:87-95 | On any sequence of headers read, the seven counters together count every header once, except the unrecognised ones. |
| LogReading.InputStream.Read | ssl_ros_bridge/src/log2bag/log_reader.cpp:78-78 | `read` and `gcount` of a finite stream: bytes delivered, new position, end-of-file and fail bits. |
| LogReading.LogReader.CheckHeader | ssl_ros_bridge/src/log2bag/log_reader.cpp:58-72 | Which error, if any, for every stream. |
| LogReading.LogReader.Open | ssl_ros_bridge/src/log2bag/log_reader.cpp:27-40 | A reader is made exactly when the stream starts with the file header; its counters are zero. |
| LogReading.LogReader.ExtractNextEntry | ssl_ros_bridge/src/log2bag/log_reader.cpp:74-143 | The imperative extraction agrees with one step of the parser: entry, counter, position, end of file, exception. |
| LogReading.LogReader.ParseMessage | ssl_ros_bridge/src/log2bag/log_reader.cpp:116-140 | Only two types are parsed, each by its own parser, and a failed parse leaves no message. |
| LogReading.LogReader.GetNextMessage | ssl_ros_bridge/src/log2bag/log_reader.cpp:42-56 | Each call hands out the first entry that the parser finds ahead and counts the headers passed over; it ends on every stream; when there is none, the stream is at its end or just behind the header with a negative size; after the end of file it returns nothing and changes nothing. |
| Log2Bag.PercentInRange | ssl_ros_bridge/src/log2bag/log2bag.cpp:58-62 | Percent stays within 100 for every position in the file, even where the product wraps. |
| Log2Bag.PercentIsFloor | ssl_ros_bridge/src/log2bag/log2bag.cpp:58-62 | Without a wrap, percent is the number of whole hundredths read, and 100 exactly at the end. |
| Log2Bag.PercentNeverDropsIff | ssl_ros_bridge/src/log2bag/log2bag.cpp:58-62 | Percent never decreases over the file if and only if the size times 100 fits 64 bits. |
| Log2Bag.RenderProgressBar | ssl_ros_bridge/src/log2bag/log2bag.cpp:58-68 | Filled and blank characters are 20 together, one filled per full five percent. |
| Log2Bag.WriteMessageIfExists | ssl_ros_bridge/src/log2bag/log2bag.cpp:30-45 | Writes the converted message with the time of the entry if the entry holds one of the wanted type, else nothing. |
| Log2Bag.WriteEntry | ssl_ros_bridge/src/log2bag/log2bag.cpp:102-105 | The two conditional writes together write each entry once, to the topic of its kind. |
| Log2Bag.TranslateAll | ssl_ros_bridge/src/log2bag/log2bag.cpp:100-106 | The main loop mirrors everything the parser finds ahead, in order; bars stay in range and do not drop. |
| Log2Bag.Run | ssl_ros_bridge/src/log2bag/log2bag.cpp:70-124 | For every file: fails exactly without the log header; otherwise the bag mirrors the parser's entries, the seven statistics sum to the headers less the unrecognised ones, and counts minus bag writes are parse failures plus at most one lost entry. |
| EndToEnd.BagOfWrittenLog | ssl_ros_bridge/src/log2bag/log2bag.cpp:100-106 | Written log to bag: one message per decodable entry, in order, with its time, topic and type name, and the referee message is recoverable from the bag up to the erasure. |
| Conversion.TimestampRecoveredIff | ssl_ros_bridge/src/core/message_conversion.cpp:71-76 | A microsecond timestamp is recoverable if and only if it is below 2^31 seconds. |
| Conversion.FittingTimeIsExact | ssl_ros_bridge/src/core/message_conversion.cpp:71-76 | Seconds and nanoseconds together are the timestamp, for every timestamp below 2^31 seconds. |
| Conversion.LaterTimeWraps | ssl_ros_bridge/src/core/message_conversion.cpp:71-76 | A later timestamp, while its nanoseconds fit 64 bits, keeps its nanoseconds and its seconds modulo 2^32. |
| Conversion.RestoreInvertsFromPayload | ssl_ros_bridge/src/core/message_conversion.cpp:211-567 | Each of the 41 event payloads is recovered from its ROS form except for three fields that are not copied. |
| Conversion.PayloadImageIff | ssl_ros_bridge/src/core/message_conversion.cpp:211-567 | Exactly which ROS payloads come out: known team, at most one element per optional field, points in the plane, the two fields that are not copied empty. |
| Conversion.OneofStaysExclusive | ssl_ros_bridge/src/core/message_conversion.cpp:127-174 | After the 37 guarded assignments, one after the other, at most one of the 47 arrays is filled, with one element, and one is exactly when the event set is not deprecated; a field that holds a message of its type leads to an array that does. |
| Conversion.RestoreInvertsFromGameEvent | ssl_ros_bridge/src/core/message_conversion.cpp:127-174 | A game event is recovered up to its erasure, and the erasure does not show in ROS. |
| Conversion.RestoreInvertsFromProposalGroups | ssl_ros_bridge/src/core/message_conversion.cpp:176-187 | The same for lists of proposal groups, with order and length kept. |
| Conversion.RestoreInvertsFromTeamInfo | ssl_ros_bridge/src/core/message_conversion.cpp:102-125 | Team information is recovered completely. |
| Conversion.RestoreInvertsFromReferee | ssl_ros_bridge/src/core/message_conversion.cpp:66-100 | A referee message is recovered up to the erasure if and only if both its timestamps fit. |
| Conversion.FieldsAreCanonical | ssl_ros_bridge/src/core/message_conversion.cpp:66-187 | For every message, whatever its timestamps: at most one element per optional field, in all nested messages too. |
| Conversion.RefereeImageIff | ssl_ros_bridge/src/core/message_conversion.cpp:66-187 | Exactly which ROS messages come out of messages whose timestamps fit; each comes out of the message restored from it. |
| Conversion.SameRosMessageIff | ssl_ros_bridge/src/core/message_conversion.cpp:66-187 | Two messages look the same in ROS precisely when their converted timestamps are equal and the rest differs only by the erasure; with timestamps that fit, precisely when they differ only by the erasure. |
| Conversion.NestedEventsStayExclusive | ssl_ros_bridge/src/core/message_conversion.cpp:87-96 | Mapped lists keep length and order, and every nested event stays exclusive. |
| TeamProtocol.WaitPolls | ssl_ros_bridge/src/team_client/team_client.cpp:195-234 | Sleeps follow empty polls before the deadline; a wait parses nothing if and only if the pass after the last sleep saw the deadline or an error; otherwise the parser gets the oldest bytes, as many as there are up to 1024; and exactly what stays unread. |
| TeamProtocol.SleepsAreBounded | ssl_ros_bridge/src/team_client/team_client.cpp:198-214 | The number of sleeps is bounded by the time between making the rate object and the deadline. |
| TeamProtocol.AtMostElevenSleeps | ssl_ros_bridge/src/team_client/team_client.cpp:198-214 | At most 11 sleeps when the deadline is computed within 100 ms of that. |
| TeamProtocol.ElevenSleepsHappen | ssl_ros_bridge/src/team_client/team_client.cpp:198-214 | The bound is reached. |
| TeamProtocol.RepliesMatchRequests | ssl_ros_bridge/src/team_client/team_client.cpp:236-267 | For every row of requests on a registered session with nothing unread, each reply found whole by some pass before the deadline: the requests are written in order, each before its reply; the i-th result is that of the i-th reply, accepted iff its status is OK; nothing is left unread and the client stays connected. |
| TeamProtocol.ResultTellsReply | ssl_ros_bridge/src/team_client/team_client.cpp:244-267 | A result is accepted exactly for an OK status; its reason is the controller's, or empty, or "Client error." when there was no payload. |
| TeamProtocol.StaleFrameAnswersOnce | ssl_ros_bridge/src/team_client/team_client.cpp:215-267 | A frame that is there before the reply answers the request; nothing is left unread after it exactly when it and the reply fit 1024 bytes together, and then results and replies match again; otherwise the excess of the reply stays unread. |
| TeamProtocol.LateReplyAnswersNextRequest | ssl_ros_bridge/src/team_client/team_client.cpp:195-267 | A request that times out is answered by "Client error."; its late reply answers the next request; if the two replies fit 1024 bytes together, results and replies match from the third request on. |
| TeamProtocol.LateRepliesStayBehind | ssl_ros_bridge/src/team_client/team_client.cpp:195-267 | For any number of requests: when one times out and each later one finds only the reply to its predecessor, each result is that of the request before, and the client stays connected. |
| TeamProtocol.ConnectKeepsInv | ssl_ros_bridge/src/team_client/team_client.cpp:34-193 | Success exactly on two welcomes; one new session, with the endpoint asked for and with exactly the events of the handshake; after the first welcome only, one registration is written, with the team's name and its colour unless that is automatic; connected means registered. |
| TeamProtocol.PayloadWelcomesOrRefuses | ssl_ros_bridge/src/team_client/team_client.cpp:119-131 | Every payload either welcomes or refuses; it refuses exactly with the status UNKNOWN_STATUS_CODE or REJECTED; no payload does neither. |
| TeamProtocol.SocketLeftOpenIff | ssl_ros_bridge/src/team_client/team_client.cpp:94-133 | In which state every attempt leaves the socket, and exactly which failed ones leave it open. |
| TeamProtocol.SendRequestKeepsInv | ssl_ros_bridge/src/team_client/team_client.cpp:236-267 | The request is written at the end of the current session, followed by what was heard; nothing else changes, and every session stays in the protocol's language. |
| TeamProtocol.LanguageIsPrefixClosed | ssl_ros_bridge/src/team_client/team_client.cpp:165-165 | A session cut short by an exception in a write is still in the language. |
| TeamProtocol.WireLanguage | ssl_ros_bridge/src/team_client/team_client.cpp:144-193 | On the wire: a prefix of one registration followed by requests. |
| TeamProtocol.WritesFollowWelcomes | ssl_ros_bridge/src/team_client/team_client.cpp:109-133 | The registration follows a first welcome, every request a second one. |
| TeamClients.TeamClient.WaitForReply | ssl_ros_bridge/src/team_client/team_client.cpp:195-234 | The polling loop over the 1024-byte buffer returns and leaves unread what `WaitFrom` says. |
| TeamClients.TeamClient.AttemptToConnectSocket | ssl_ros_bridge/src/team_client/team_client.cpp:94-142 | Succeeds on a welcome; which state the socket is left in; a new session is opened when the controller is reached. |
| TeamClients.TeamClient.AttemptToRegister | ssl_ros_bridge/src/team_client/team_client.cpp:144-193 | Writes one registration and succeeds exactly on a welcome. |
| TeamClients.TeamClient.Connect | ssl_ros_bridge/src/team_client/team_client.cpp:34-47 | Equal to the protocol's connect on the replies that the two waits bring, the second reading on where the first stopped. |
| TeamClients.TeamClient.Disconnect | ssl_ros_bridge/src/team_client/team_client.cpp:49-53 | Closed and not connected; sessions untouched. |
| TeamClients.TeamClient.SendRequest | ssl_ros_bridge/src/team_client/team_client.cpp:236-267 | Equal to the protocol's request on the reply that the wait brings. |
| TeamClientNodes.ReconnectReports | ssl_ros_bridge/src/team_client/team_client_node.cpp:99-164 | Reported success means connected, unless the node has no address; with an address in the request, connected on a session with that address, which is the node's new one. |
| TeamClientNodes.ReconnectUsesParameters | ssl_ros_bridge/src/team_client/team_client_node.cpp:99-120 | A session opened by a reconnect is with the node's address and port, and registers its team name and colour. |
| TeamClientNodes.RequestKeepsConnection | ssl_ros_bridge/src/team_client/team_client_node.cpp:122-154 | Unless connected, a service request does nothing and is refused with a reason; otherwise that very request is written on the current session and the result is that of its reply; connectivity never changes. |
| TeamClientNodes.PingPublishesTruth | ssl_ros_bridge/src/team_client/team_client_node.cpp:192-206 | A connected client writes a ping, and only that; the published status is the client's connectivity when the callback ends; a failed ping closes the socket. |
| TeamClientNodes.TeamClientNode.constructor | ssl_ros_bridge/src/team_client/team_client_node.cpp:37-85 | The node starts with one attempt to connect. |
| TeamClientNodes.TeamClientNode.ConnectClient | ssl_ros_bridge/src/team_client/team_client_node.cpp:99-120 | Equal to the node's connect; all sessions stay in the language. |
| TeamClientNodes.TeamClientNode.HandleReconnectTeamClient | ssl_ros_bridge/src/team_client/team_client_node.cpp:156-164 | Overwrites the address unless the request has none, then connects. |
| TeamClientNodes.TeamClientNode.HandleServiceRequest | ssl_ros_bridge/src/team_client/team_client_node.cpp:122-154 | The guard of the keeper, substitution and advantage services; sessions stay in the language. |
| TeamClientNodes.TeamClientNode.OnPingTimer | ssl_ros_bridge/src/team_client/team_client_node.cpp:192-206 | Pings if connected, disconnects on failure, publishes one status. |
| BridgeProtocol.DatagramOutcome | ssl_ros_bridge/src/game_controller_bridge/gc_multicast_bridge_node.cpp:83-104 | From datagram to attempt, whatever the flag does meanwhile: the callback returns and arms the next receive, or has made one attempt to the sender, exactly when the datagram parses, the flag was clear, the service ready and a second has passed since the last. |
| MulticastBridges.MulticastReceiver.Complete | ssl_ros_bridge/src/core/multicast_receiver.cpp:146-148 | The completed receive leaves the datagram, cut to 4096 bytes, in the buffer. |
| MulticastBridges.GCMulticastBridgeNode.HandleMulticastReceiveFrom | ssl_ros_bridge/src/core/multicast_receiver.cpp:137-155 | Error: not armed again. Otherwise equal to the bridge's datagram step, armed again when the callback has returned. |
| MulticastBridges.GCMulticastBridgeNode.PublishMulticastMessage | ssl_ros_bridge/src/game_controller_bridge/gc_multicast_bridge_node.cpp:83-95 | Publishes exactly the parseable datagram, and goes on exactly if the flag is clear and the service ready. |
| MulticastBridges.GCMulticastBridgeNode.RequestReconnect | ssl_ros_bridge/src/game_controller_bridge/gc_multicast_bridge_node.cpp:96-104 | Sends one request to the sender and remembers the time exactly if a retry time has passed since the last; otherwise returns and arms the next receive. |
| MulticastBridges.GCMulticastBridgeNode.FinishWaiting | ssl_ros_bridge/src/game_controller_bridge/gc_multicast_bridge_node.cpp:105-112 | A reported success leads on to setting the flag; a timeout or a reported failure ends the callback with the flag as it was and the next receive armed. |
| MulticastBridges.GCMulticastBridgeNode.SetTeamClientConnected | ssl_ros_bridge/src/game_controller_bridge/gc_multicast_bridge_node.cpp:113-114 | The flag is set and the callback ends. |
| MulticastBridges.GCMulticastBridgeNode.TeamClientConnectionStatusCallback | ssl_ros_bridge/src/game_controller_bridge/gc_multicast_bridge_node.cpp:116-120 | The flag becomes what the status says; nothing else changes. |
| GcSystem.EpochCountsChanges | ssl_ros_bridge/src/team_client/team_client_node.cpp:99-206 | The epoch of the model counts the changes of the client's connectivity. |
| GcSystem.StepKeepsInv | ssl_ros_bridge/src/game_controller_bridge/gc_multicast_bridge_node.cpp:83-120 | Every step of every component keeps every invariant. |
| GcProperties.CurrentStatusLastsIff | ssl_ros_bridge/src/game_controller_bridge/gc_multicast_bridge_node.cpp:93-120 | In every reachable state in which the flag is what a current status said: it equals the client's state in every continuation up to the next change of connectivity, if and only if the client is connected or the bridge's thread holds no reply that reports success. |
| GcProperties.CurrentStatusSettlesIff | ssl_ros_bridge/src/game_controller_bridge/gc_multicast_bridge_node.cpp:105-120 | The same condition, checked before a current status is delivered, decides whether delivering it settles the flag until the next change of connectivity. |
| GcProperties.AgreementLastsIff | ssl_ros_bridge/src/game_controller_bridge/gc_multicast_bridge_node.cpp:93-120 | In any state of a run, agreement lasts until the next change of connectivity if and only if it holds now, no status on its way contradicts it, and a disconnected client is not contradicted by a success the bridge's thread holds. |
| GcProperties.LateFlagBreaksAgreement | ssl_ros_bridge/src/game_controller_bridge/gc_multicast_bridge_node.cpp:109-113 | For every datagram that parses, a run of seven steps that begins with it and ends quiet, with a current status delivered, and in disagreement. |
| GcProperties.QuietStatusSettles | ssl_ros_bridge/src/game_controller_bridge/gc_multicast_bridge_node.cpp:93-120 | A current status delivered while no reconnect request is queued, served or awaited brings agreement that lasts until connectivity changes, later attempts included. |
| GcProperties.AttemptsFollowBelief | ssl_ros_bridge/src/game_controller_bridge/gc_multicast_bridge_node.cpp:93-104 | In every run, each attempt goes back to a look at the flag after the last belief event, if any, said disconnected; and at that moment the client was connected only if no status published since it connected had been delivered. |
| GcProperties.AttemptsSpareConnectedClientIff | ssl_ros_bridge/src/game_controller_bridge/gc_multicast_bridge_node.cpp:93-104 | In every reachable state: no request is sent to a connected client up to the next change of connectivity, if and only if it is disconnected, or nothing is received any more, or no status on its way, no look at the flag and no clear flag can make the bridge send one. |
| GcProperties.NeverReconfiguredWhileConnectedIff | ssl_ros_bridge/src/game_controller_bridge/gc_multicast_bridge_node.cpp:93-120 | In every reachable state: no request of the bridge is served to a connected client up to the next change of connectivity, if and only if it is disconnected, or no request is waiting and nothing can make the bridge send one. |
| GcProperties.CurrentStatusNeverReconfiguredIff | ssl_ros_bridge/src/game_controller_bridge/gc_multicast_bridge_node.cpp:93-120 | Once a status published since the last change has been delivered, the same, if and only if the client is disconnected or no request is waiting or about to be sent. |
| GcProperties.DiscoveryCanDropConnection | ssl_ros_bridge/src/game_controller_bridge/gc_multicast_bridge_node.cpp:75-104 | For every datagram that parses, a run in which it costs a connected client its connection. |
| GcProperties.QueuedRequestCanDropConnection | ssl_ros_bridge/src/game_controller_bridge/gc_multicast_bridge_node.cpp:102-108 | For every datagram that parses, a run after which the client is connected, the bridge knows it and sends nothing more, and a request sent before costs the client its connection. |
| GcProperties.RateLimit | ssl_ros_bridge/src/game_controller_bridge/gc_multicast_bridge_node.cpp:75-101 | In every run, any window of T seconds holds at most floor(T) + 1 attempts, whatever the clock does, and the first is not in the clock's first second. |
| GcProperties.FlagIsSound | ssl_ros_bridge/src/game_controller_bridge/gc_multicast_bridge_node.cpp:102-113 | Whenever the flag was set from a reply, the client was connected when it replied, on a session with the deduced sender. |
| GcProperties.SessionsSpeakTheProtocol | ssl_ros_bridge/src/team_client/team_client_node.cpp:99-206 | In every run: the wire language of every session, and connected implies an open socket on a registered session. |
| GcProperties.OperatorRequestIsWritten | ssl_ros_bridge/src/team_client/team_client_node.cpp:122-154 | In every run, an operator's request is what a connected client writes, and a disconnected one does nothing. |
| GcProperties.ReceptionIsSerial | ssl_ros_bridge/src/core/multicast_receiver.cpp:137-155 | In every run, one armed receive or a running callback, never both; an unmodified datagram; the published sequence is the in-order conversion. |
| GcProperties.WaitingEnds | ssl_ros_bridge/src/game_controller_bridge/gc_multicast_bridge_node.cpp:105-114 | In every run: after a reply the bridge is about to set its flag exactly if it reported success; after any other, a timeout, or setting the flag, it listens again with one receive armed. |
| GcProperties.NothingAfterReceiveError | ssl_ros_bridge/src/core/multicast_receiver.cpp:141-144 | After a receive error nothing is received, published or attempted. |
| GcProperties.ReceiveErrorStops | ssl_ros_bridge/src/core/multicast_receiver.cpp:141-144 | The first receive error puts the bridge in that state. |

## Left out

- Protobuf wire parsing and delimited framing, ROS serialization and rosbag storage: unseen libraries, arbitrary functions here.
- Boost.Asio internals and socket errors other than "this step fails"; a socket error that comes with data already read.
- Exceptions from `boost::asio::write` and from malformed address strings: they end the node's run; a session cut short there is covered by `LanguageIsPrefixClosed`.
- Streams that go bad before their end, and failure to allocate a buffer of non-negative size.
- LogReading.LogReader.GetNextMessage: the 64-bit counters are unbounded here.
- TeamClients.TeamClient.SendRequest: requires an attached socket, because the write throws otherwise; the node's guard is proved to provide it.
- `next_token_` of the client: stored but never sent.
- The measured duration of a ping, log output, and the names of the services in responses.
- `SetDesiredKeeper`, `RequestBotSubstitution` and `SetAdvantageChoice`: each only builds the message that `SendRequest` sends.
- Team colour strings other than auto, blue and yellow, and advantage choices other than STOP and CONTINUE, for which the code leaves a variable uninitialised.
- Memory ordering of the plain `bool` that the bridge's two threads share.
- Conversion.RestoreInvertsFromReferee: over real numbers, so the rounding of the designated position is not modelled; enum fields are their numbers below 256.
- That the oneof field of an event holds a message of its type is a condition (`Proto.Holds`) rather than part of the datatype, so the conversion theorems cover more messages than the protocol allows; `OneofStaysExclusive` shows that the conversion keeps it.
- Vision conversion, `RobotId` and `Division`: easy members, and the last two are not part of a referee message.
- Joining multicast groups, `SendTo`, `get_ip_addresses.cpp`, `protobuf_logging.hpp`, the vision bridge node, launch files and parameter declaration: plumbing.
