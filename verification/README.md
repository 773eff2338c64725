# Verified model of the chase lobby server's network core

A Dafny model of the parts of the lobby server where bytes, callbacks and objects can get out of step, with proofs of
what they keep. `dafny verify dfyconfig.toml` checks all of it.

The model has five layers, each built on the one before.

1. **Buffers and frames.** `Buffers.dfy` is the 32768-byte array with two offsets, shown to be a bounded FIFO
   queue. `Keys.dfy` has the two words in front of a packet. `Framing.dfy` says what one run of a parser does to any
   byte string, for six of the parsers, and characterises the strings it accepts; `Throwing.dfy` characterises those on
   which it throws or rejects. `PacketParser.dfy` is the imperative
   loop over message buffers, proved to be that function, and the sending side. `Routing.dfy` has the header and the
   first bytes of a part in plain numbers. `Xor.dfy` and `Masking.dfy` treat the
   masked variant, `Chunks.dfy` treats streams that arrive in pieces.
2. **Packets.** `JsonPackets.dfy` has the two packed packet structures with their encoders and decoders, and
   `EndToEnd.dfy` takes a list of messages through both deployed links.
3. **Connections.** `Lifecycle.dfy` is a connection as a machine: the strand's handlers are atomic steps, error codes,
   shutdown results and interleavings are arbitrary. `Connections.dfy` is the class whose methods are those steps.
   `Closing.dfy` and `Timers.dfy` follow the reader, the posted close and the deadlines, `TimerAccounts.dfy` counts
   renewals, reservations, writes and retries. `SessionDelivery.dfy` puts the
   first three layers together.
4. **Users.** `Registry.dfy` runs the lobby user registry over any number of such connections, its critical sections
   interleaving freely; `Lobby.dfy` is the class. `BrokerLink.dfy` runs the connector and the reconnecting broker
   link over them, `ConnectChain.dfy` accounts for its chains of connects, `LinkLife.dfy` says when the link still lives, `BrokerUsers.dfy` what becomes of `m_user`;
   `Broker.dfy` is the class.
5. **Dates.** `DateTimes.dfy` is the SQL date-time printer and parser, `DateLayout.dfy` its text character by
   character.

Where the code does something a reader of its interface would not expect, the model follows the code and a theorem
says exactly when the expectation holds:

- `write` compares `size() + count` with the capacity, not with the room behind the write offset. The guard is enough
  exactly at read offset 0 (`WriteGuardSuffices`); every sender in the repository writes into a fresh buffer.
- The copy constructor copies from the array's start (`CopyPreserves`).
- `read_handler` gives each read a new buffer, so what a parser leaves unread is lost. A frame survives exactly if one
  read brings all of it (`FrameSurvivesFreshBuffers`), though the parser itself resumes anywhere (`Resume`).
- The retry branch of `read_handler` waits for dispatches that, on a FIFO strand, have always run already
  (`WhenReadErrorsAreRetried`).
- If the shutdown inside `closing` fails after a read error, the connection stays open with no read armed
  (`WhenOpenIsDeaf`). Only a failed write or a reserved close can end it then, and the broker link has no keep-alive time
  to reserve one (lobbysvr/main.cpp:106).
- If the shutdown inside the posted `close` fails, the connection stays in `closing` and `onClose` never comes
  (`PostedCloseDecides`, `WhenClosingIsStuck`).
- A second login under a mapped `userIDX` is ignored, and whoever leaves takes the shared entry along
  (`WhenLoginIsSound`, `CloseTakesTheEntry`).
- `connect_handler` calls `start_connect` before `onConnect`, so a connection can close in between. Callbacks alternate
  exactly if that does not happen (`WhenCallbacksTakeTurns`). A `ConnectorUser` is deleted twice exactly if an `onClose`
  comes while `m_user` points to a deleted one (`WhenUsersAreFreedOnce`); `DeletedTwice` is a run in which one does.
- An exception while reconnecting, or a failed shutdown in the posted `close`, ends the broker link for good; a reader
  lost to a failed shutdown leaves it waiting (`LinkSurvives`, `LinkGetsStuck`).
- A part longer than its frame makes `total_size` wrap, and the parser takes itself to be inside the frame still: it
  takes the bytes that follow for parts, and once fewer than 4 are left reading a partKey throws (`WrappedCountThrows`,
  `ParserThrowsExactlyOnBroken`). Nothing catches the exception, neither in the strand nor around `io_service::run`
  (net/netService.cpp:183, :197-198), so the machine's steps after a dispatch that threw describe a process that is
  gone.
- `ConnectorUser::SendJsonPacket` copies url and body into its structure with no bound check at all
  (lobbysvr/connectorUser.cpp:29-35). The lobby encoder compares the size with its limit only after copying, and after
  truncating it to 16 bits (lobbysvr/lobbyUser.cpp:63-72). The encoders here demand that the copies fit.
- The deployed parsers are the `Test` pair (lobbysvr/main.cpp:66-67, :103-104). The parsers that read a four-byte code
  take part of the lobby packet's sequence number into it (`FourByteCodeRejectsLobbyPackets`).
- A printed time without a date that has a negative field is read back as one with a date (`RoundTrip` of `DateTimes`).

## Model

| member | source | states |
|---|---|---|
| Buffers.Perform | net/messageBuffer.cpp:60-161 | any sequence of operations whose writes fit behind the write offset is answered as a bounded FIFO queue of bytes answers it; compaction never shows |
| Buffers.PerformOne | net/messageBuffer.cpp:60-161 | one operation: the queue's new content and reply, and where both offsets go |
| Buffers.MessageBuffer.Write | net/messageBuffer.cpp:98-108 | appends exactly the source bytes, or throws and changes nothing, by the size guard |
| Buffers.MessageBuffer.Accept | net/messageBuffer.cpp:111-120 | takes over bytes already stored behind the write offset |
| Buffers.MessageBuffer.Read | net/messageBuffer.cpp:122-138 | moves the first bytes to the destination in order and removes them, or throws and changes nothing |
| Buffers.MessageBuffer.Skip | net/messageBuffer.cpp:140-155 | removes the first bytes, or throws and changes nothing |
| Buffers.MessageBuffer.Peek | net/messageBuffer.cpp:60-67 | copies the first bytes without removing them, exactly if there are enough |
| Buffers.MessageBuffer.Arrange | net/messageBuffer.cpp:84-96 | moving the unread bytes to the front keeps them |
| Buffers.MessageBuffer.Facilitate | net/messageBuffer.cpp:48-53 | overwrites the 8 bytes at the read offset with the header and nothing else |
| Buffers.MessageBuffer.Copy | net/messageBuffer.cpp:30-35 | the copy holds the array's first size() bytes, and no manipulator |
| Buffers.WriteGuardSuffices | net/messageBuffer.cpp:98-120 | the guard alone keeps every write inside the array exactly if the read offset is 0 |
| Buffers.CopyPreserves | net/messageBuffer.cpp:30-35 | a copy has the original's content, whatever it is, exactly at read offset 0 or when empty |
| Buffers.RoomAfterConsuming | net/messageBuffer.cpp:122-155 | what compaction is for: behind a successful read there is room for 21844 bytes, or for all the buffer can still hold |
| Keys.KeyStyle.WordsRecoverLength | lobbysvr/packetParserJson.h:12-14 | markers always come back; a length comes back exactly if it fits the style's bits |
| Keys.KeyStyle.WordsAreCanonical | lobbysvr/packetParserJson.h:12-14 | a word with the right marker is the word made from its length |
| Keys.HeaderRecovered | lobbysvr/packetParserJson.h:39-68 | for every body that fits one buffer, facilitate and the parser's reads recover both markers and both lengths, within 16 bits |
| Routing.WireBytes | lobbysvr/packetParserJson.h:9-69 | the 8 bytes in front of every packet, in numbers: both lengths least significant byte first, 0xffff and 0xfff3 behind them in the tagged form, zeros in the plain one |
| Framing.NextPart | lobbysvr/packetParserJson.cpp:186-231 | an iteration that goes on consumes a partKey, its part and at a frame's start the mainKey, so at least 4 bytes |
| Framing.FrameStep | lobbysvr/packetParserJson.cpp:209-227 | one iteration inside a well-formed frame hands on the next part and counts total_size down to 4 plus the frame bytes still unread, or to the frame's end after the last part |
| Framing.FrameAccounting | lobbysvr/packetParserJson.cpp:199-227 | from any part of a well-formed frame on, the loop hands on the frame's remaining parts without wrapping or throwing and is back at a mainKey exactly at the frame's end |
| Framing.FramesThenTail | lobbysvr/packetParserJson.cpp:184-252 | multi-part frames in front of any bytes are handed on part by part, and the run goes on behind them |
| Framing.ReadPartIsEncoded | lobbysvr/packetParserJson.cpp:209-227 | a part the loop takes is byte for byte what encoding that part gives |
| Framing.DoneInsideFrame | lobbysvr/packetParserJson.cpp:206-252 | for arbitrary bytes, a run that ends with true never lost count: what followed each mainKey is exactly the announced parts, wrap-around included |
| Framing.ParserAcceptsExactlyStreams | lobbysvr/packetParserJson.cpp:173-253 | true is returned exactly for acceptable frames followed by an unfinished tail; then exactly their parts were handed on, in order, and exactly the tail is left |
| Framing.CutStream | net/packetParserSimple.cpp:165-186 | a stream cut anywhere is complete frames and an unfinished tail, and that tail continues with the rest of the stream |
| Framing.PrefixIsDelivered | net/packetParserSimple.cpp:165-231 | on any prefix of a well-formed stream: no exception, no rejection, exactly the complete frames' parts, exactly the unfinished frame left unread |
| Throwing.ParserThrowsExactlyOnBroken | lobbysvr/packetParserJson.cpp:184-252 | an exception leaves the loop exactly on acceptable frames followed by a complete frame whose acceptable parts never add up to the announced length and end with under 4 bytes, or reach a part whose handler throws |
| Throwing.ParserRejectsExactlyBadBytes | lobbysvr/packetParserJson.cpp:184-252 | false is returned exactly on acceptable frames followed by a header without the mainKey's marker, or by a complete frame whose acceptable parts never add up and meet a wrong partKey marker, a length beyond the buffer or a part nobody handles |
| Throwing.WrappedCountThrows | lobbysvr/packetParserJson.cpp:209-227 | a concrete string on which total_size wraps to 2^32 - 1 and the next partKey read throws |
| PacketParser.ParsePackets | lobbysvr/packetParserJson.cpp:173-253 | for every buffer content the imperative loop terminates with the calls, decoded packets, outcome and leftover of the recursive definition, uint32 wrap included |
| PacketParser.FindPart | lobbysvr/packetParserJson.cpp:187-227 | one iteration up to the copy: waits, rejects, throws or finds the part as specified, with the buffer consumed accordingly |
| PacketParser.TakePart | lobbysvr/packetParserJson.cpp:311-325 | the part body ends up, unmasked where the parser does that, in a fresh buffer it fits |
| PacketParser.HandOn | lobbysvr/packetParserJson.cpp:233-248 | routing by the packet code, 0 for a part shorter than the code variable; for the deployed parsers in numbers |
| Routing.LobbyTestRoutes | lobbysvr/packetParserJson.cpp:556-577 | a part of any bytes on the deployed client link: rejected exactly if it is empty or begins with neither 1 nor 3; 1 is a JSON packet, 3 a heartbeat |
| Routing.LobbyRoutes | lobbysvr/packetParserJson.cpp:233-248 | the same for the parsers with a four-byte code, masked or not |
| Routing.BrokerRoutes | lobbysvr/packetParserJson.cpp:427-491 | the broker parsers reject exactly what does not begin with code 1, and throw exactly on such a part under 38 bytes |
| Routing.RegisteredRoutes | net/packetParserSimple.cpp:210-228 | members before statics before noHandler, with code 0 for short parts |
| PacketParser.XorInPlace | lobbysvr/packetParserJson.cpp:317-325 | the five in-place passes are one pass with 0x5a over the part, and nothing behind it changes |
| PacketParser.SendPacket | net/connectionImpl.cpp:164-195 | what goes on the wire is one frame with the packet as its only part; it throws exactly if header and packet exceed the buffer |
| Xor.MaskIsXor | lobbysvr/packetParserJson.cpp:322-322 | a masked byte has exactly those bits set in which byte and key differ |
| Xor.FivePassesAreOne | lobbysvr/packetParserJson.cpp:317-325 | masking with the five keys one after the other, last first, is masking with 0x5a |
| Xor.MaskUndoesItself | lobbysvr/packetParserJson.cpp:317-325 | masking twice with any key gives the bytes back |
| Masking.MaskBodiesUndoesItself | lobbysvr/packetParserJson.cpp:291-325 | masking the part bodies of a stream twice gives the stream back |
| Masking.XorParsesMasked | lobbysvr/packetParserJson.cpp:255-347 | on every byte string the xor parser, run on its masked form, makes the calls, outcome and leftover of the plain parser |
| Masking.MaskedStream | lobbysvr/packetParserJson.cpp:291-325 | the masked form of a stream is what a sender puts on the wire that masks every part before framing it |
| Masking.MaskedIsDelivered | lobbysvr/packetParserJson.cpp:255-347 | so the xor parser hands on the parts of acceptable frames as they were before masking, in order, and leaves the unfinished tail |
| Chunks.Resume | net/packetParserSimple.cpp:165-231 | after any bytes on which it returned true, a parser given the leftover and any further bytes does what one run on all bytes does |
| Chunks.AnyChunking | net/packetParserSimple.cpp:165-231 | with a retained buffer every way of cutting a well-formed stream into chunks delivers the same parts and leaves the same tail |
| Chunks.CallsFitInput | lobbysvr/packetParserJson.cpp:186-250 | for arbitrary input the parts handed on, their keys and the leftover never exceed the input |
| Chunks.FrameSurvivesFreshBuffers | net/connectionImpl.cpp:199-219 | with a new buffer for every read a frame's calls are made exactly if one read brings the whole frame |
| Chunks.AlignedReadsDeliver | net/connectionImpl.cpp:199-219 | reads that end at frame boundaries deliver every part in order |
| JsonPackets.EncodeBroker | lobbysvr/connectorUser.cpp:19-39 | the packet sent, byte for byte in numbers: code, url with NULs behind it, size, body |
| JsonPackets.BrokerEnds | lobbysvr/brokerConnector.cpp:84-125 | how the decoder ends, exactly, by the part's bytes: head missing, size 0 or over 4000, body missing, url without end, or the body dispatched |
| JsonPackets.EncodeLobby | lobbysvr/lobbyUser.cpp:30-75 | the packet sent, byte for byte in numbers: code, sequence number, isCompressed 0, url with NULs behind it, size with the NUL, body, NUL |
| JsonPackets.LobbyEnds | lobbysvr/lobbyAcceptorReceiver.cpp:72-126 | how the decoder ends, exactly, by the part's bytes |
| JsonPackets.ReadBrokerPacket | lobbysvr/brokerConnector.cpp:84-125 | for every message content the decoder ends as specified, errors included |
| JsonPackets.ReadLobbyPacket | lobbysvr/lobbyAcceptorReceiver.cpp:72-126 | the same for the lobby decoder |
| JsonPackets.CStringIsPrefix | lobbysvr/brokerConnector.cpp:120-122 | the url is s exactly if s has no NUL and s with a NUL starts the field |
| JsonPackets.BrokerRoundTrip | lobbysvr/connectorUser.cpp:19-39 | decoding recovers url and body exactly for NUL-free urls under 32 bytes and non-empty bodies |
| JsonPackets.LobbyRoundTrip | lobbysvr/lobbyUser.cpp:30-75 | decoding recovers url and body with its NUL exactly for NUL-free urls under 32 bytes |
| EndToEnd.Delivery | lobbysvr/packetParserJson.cpp:427-583 | over both deployed links any list of messages reaches the receiver packet by packet in order with nothing left, and the dispatched list is the sent list exactly if every url and body qualifies |
| EndToEnd.SendMessages | net/connectionImpl.cpp:164-195 | encoding and sending a list of messages never throws and puts the packets' frames on the wire |
| EndToEnd.Transmit | lobbysvr/packetParserJson.cpp:427-583 | the sending and receiving methods run one after the other: the parser returns true, and what reaches the URL table is the list sent exactly if every message qualifies |
| EndToEnd.FourByteCodeRejectsLobbyPackets | lobbysvr/packetParserJson.cpp:233-248 | a parser with a four-byte code takes a lobby packet exactly if its sequence number is a multiple of 2^24, and calls noHandler otherwise |
| Lifecycle.StepInv | net/connectionImpl.cpp:126-358 | every handler and every completion keeps the invariant on status, reads, dispatches, buffers and counters |
| Lifecycle.OnCloseFiresOnce | net/connectionImpl.cpp:250-338 | in every run onClose fires at most once, and has fired exactly if a started connection's status is close |
| Lifecycle.StageNeverFalls | net/connectionImpl.cpp:250-346 | status goes open, closing, close and never back, in every run |
| Lifecycle.OneReadOneDispatch | net/connectionImpl.cpp:197-219 | at most one read and one dispatch are under way, the dispatch in front of the next read's handler |
| Lifecycle.PendingCounts | net/connectionImpl.cpp:348-358 | the pending counter is the number of buffers queued, refused or lost to an exception; it is never decremented from 0 |
| Lifecycle.ParsedInArrivalOrder | net/messageProcedure.cpp:34-51 | buffers are parsed in arrival order without a gap, and the calls made are those of one parser run per buffer |
| Lifecycle.CallsAreFreshCalls | net/messageProcedure.cpp:34-51 | those calls are what the packet parser makes of each read alone |
| Lifecycle.ReadErrorComesLast | net/connectionImpl.cpp:223-246 | when a read error is handled every buffer received before has been through dispatch |
| Lifecycle.WhenReadErrorsAreRetried | net/connectionImpl.cpp:225-236 | a read error is put back exactly if its kind asks for it, tries are left, and a buffer was refused or threw; on an open connection without exceptions never |
| Lifecycle.PostedCloseDecides | net/connectionImpl.cpp:317-338 | onClose fires in any continuation of the posted close exactly if its shutdown succeeds |
| Closing.WhenOpenLasts | net/connectionImpl.cpp:223-278 | a connection stays open through exactly the runs without a read error not put back, a failed write or an expired reservation that meets a successful shutdown |
| Closing.WhenOpenIsDeaf | net/connectionImpl.cpp:225-267 | in every run an open connection has its one reader exactly if no read error that was not put back has met a failed shutdown, and none otherwise |
| Closing.WhenClosingIsStuck | net/connectionImpl.cpp:255-266 | in every run a closing connection has exactly one close on its way, unless the shutdown inside a close has failed: then and only then it is stuck for good |
| Timers.OpenIsWatched | net/connectionImpl.cpp:281-315 | in every run no timer has two deadlines and without keep-alive nothing expires; unless a reserved close's shutdown failed, an open connection with a keep-alive time has its deadline running, the expiry queued, or a close reserved, which both receivers' onExpiredSession does |
| Timers.ReservedCloseIsKept | net/connectionImpl.cpp:296-346 | from closeReserve on, unless its own shutdown fails, the close is running down or queued as long as the connection is open, and when it runs onClose is called exactly if the shutdown succeeds |
| Timers.NoHandlerIsAnswered | lobbysvr/lobbyAcceptorReceiver.cpp:49-53 | in every run, unless a reserved close's shutdown failed, a connection on which noHandler was called is not open any more or has a close reserved |
| TimerAccounts.KeepAccount | net/connectionImpl.cpp:281-294 | in every run the keep-alive waits running, cancelled or completed are one for the creation and one for each start, error-free read and successful write handled: nothing else renews the deadline and none of these fails to |
| TimerAccounts.ReserveAccount | net/connectionImpl.cpp:296-305 | the reservations running, cancelled or completed are the calls of closeReserve: from outside, by onExpiredSession and by noHandler on an open connection |
| TimerAccounts.EndsStopTimers | net/connectionImpl.cpp:250-338 | in every run a step that ends an open connection, and a posted close whose shutdown succeeds, leave no deadline running |
| TimerAccounts.RetriesAreBounded | net/connectionImpl.cpp:225-243 | read errors are put back at most five times in a connection's life, each counted; counted a sixth time, it reads no more |
| Lifecycle.ReadErrorEndsReading | net/connectionImpl.cpp:223-246 | in every run, once a read error has been handled and not put back, no continuation receives anything, and all received before has been through dispatch |
| Connections.ConnectionImpl.HandleRead | net/connectionImpl.cpp:197-247 | called when a read has completed, it keeps the connection's invariant, calls no onClose, receives the data and restarts the keep-alive deadline exactly if there is no error, and leaves a reader exactly if there is none or the error is put back |
| Connections.ConnectionImpl.ClosingSocket | net/connectionImpl.cpp:250-267 | however often it is called a closing connection has exactly one close on its way; it goes from open to closing, with both timers cancelled, exactly if the shutdown succeeds, and never calls onClose |
| Connections.ConnectionImpl.CloseSocket | net/connectionImpl.cpp:317-338 | where no other close is left it keeps the invariant, and onClose has been called and both timers cancelled afterwards exactly if the shutdown succeeded |
| Connections.ConnectionImpl.HandleWrite | net/connectionImpl.cpp:270-278 | a successful write restarts the keep-alive deadline, whatever else write_handler does is the machine's step |
| Connections.ConnectionImpl.DispatchBuffer | net/messageProcedure.cpp:34-51 | dispatch with the packet parser run on a real buffer: gate, calls, decoded packets and decrement |
| Connections.ConnectionImpl.RunTask | net/connectionImpl.cpp:197-346 | running the strand's first task is the machine's step, and returns the decoded packets of the buffer if it was a dispatch on an open connection |
| Connections.ConnectionImpl.React | net/connectionImpl.cpp:126-346 | any event, a completion or a task: status only moves forward, onClose is called at most once, the calls made and the packets decoded are those of the buffer dispatched |
| Connections.Live | net/connectionImpl.cpp:126-358 | an object taken through any run: onClose called exactly if it was started and is closed, buffers parsed in arrival order, and what reached readJsonPacket is what the packet parser makes of each of them alone |
| SessionDelivery.SessionDelivers | net/messageProcedure.cpp:34-51 | in every run of a connection on a deployed link whose reads bring whole packets, the messages dispatched are exactly those of the reads parsed so far, in the order sent, and no read is lost while it is open |
| SessionDelivery.LobbyDelivers | lobbysvr/lobbyAcceptorReceiver.cpp:72-126 | the same for every connection of every history of the lobby's registry, whose tag is its own live User whenever it is open |
| Registry.HappenInv | lobbysvr/lobbyUserManager.cpp:8-73 | every step of any connection, accept, add, delete, login and logout keeps tags, registered entries, live and freed Users in agreement |
| Registry.LookupsAreSafe | lobbysvr/lobbyUserManager.cpp:75-119 | in every history a look-up returns -1 exactly for unregistered identities and otherwise runs on the connection's own live User: -2 and -3 are unreachable |
| Registry.FreedAtMostOnce | lobbysvr/lobbyUserManager.cpp:35-73 | no User is deleted twice, none is live once deleted, and what a deleteUser under way is about to delete is its connection's own live User |
| Registry.GoneForGood | lobbysvr/lobbyUserManager.cpp:35-73 | after deleteUser the connection is never registered or tagged again |
| Registry.OpenHasUser | lobbysvr/lobbyAcceptorReceiver.cpp:72-76 | in every history a connection that is open is registered and tagged with its own live User |
| Registry.EveryConnectionRuns | net/netServiceAcceptor.cpp:92-107 | what a history does to one connection is a run of that connection, with the parser and keep-alive setting it was accepted with |
| Registry.WhatUsersHold | lobbysvr/lobbyUser.h:36-36 | in every history a live User holds the userIDX last written to it, and 0 before anyone writes |
| Registry.StrangersTakeNothing | lobbysvr/lobbyUserManager.cpp:53-57 | the close of a connection whose User was never written to takes no entry but that of userIDX 0 |
| Registry.WhatIsMapped | lobbysvr/lobbyUserManager.cpp:121-139 | after every history a userIDX is mapped exactly if some login under it was followed by no logout under it and no close of a User holding it |
| Registry.WhenNothingEverDangles | lobbysvr/lobbyUserManager.cpp:121-139 | across duplicate logins, logouts and closes every m_nodeToUserMap entry leads to a registered User with that userIDX throughout exactly the histories whose logins and writes of m_userIDX are sound |
| Registry.WhenStepIsSound | lobbysvr/lobbyUserManager.cpp:53-139 | a step keeps the map sound exactly if it is no login of an unmapped userIDX under a connection whose User does not hold it, and no write of another value to a mapped connection's User |
| Registry.LookupsByUserIDXAreSafe | lobbysvr/lobbyUserManager.cpp:180-207 | in those histories a look-up by userIDX finds a live User with it exactly if it is mapped |
| Registry.LoggedInStaysReachable | lobbysvr/lobbyUserManager.cpp:121-139 | until a logout under its userIDX or a close of a User holding it every look-up finds the live User of the connection that logged in |
| Registry.WhenLoginIsSound | lobbysvr/lobbyUserManager.cpp:121-130 | userLogined keeps the map sound exactly if the userIDX is taken already or names a registered User holding it |
| Lobby.LobbyUserManager.AddUser | lobbysvr/lobbyUserManager.cpp:8-33 | an untagged connection is registered and gets a live User of its own that never was before and holds userIDX 0; nothing else changes and the registry stays consistent |
| Lobby.LobbyUserManager.RemoveUser | lobbysvr/lobbyUserManager.cpp:53-71 | deleteUser's whole effect under the lock, found or not |
| Lobby.LobbyUserManager.DeleteUser | lobbysvr/lobbyUserManager.cpp:35-73 | afterwards the connection is neither registered nor tagged, its own User has been deleted, for the first time, and no entry by userIDX dangles that did not before |
| Lobby.LobbyUserManager.ProcessUser | lobbysvr/lobbyUserManager.cpp:75-97 | with a consistent registry the code is 0 for registered identities and -1 for others, and the callback runs on the connection's own live User |
| Lobby.LobbyUserManager.ReceiverByUserIDX | lobbysvr/lobbyUserManager.cpp:180-207 | with a consistent registry where nothing dangles a User is sent to exactly if the userIDX is mapped, and it is live and holds it |
| Lobby.LobbyUserManager.ReceiversOfAll | lobbysvr/lobbyUserManager.cpp:209-224 | the loop reaches every entry that leads to a User once, in ascending order of identity, and nothing else |
| Lobby.BroadcastReachesEveryone | lobbysvr/lobbyUserManager.cpp:209-224 | in every history that is each registered connection exactly once, each through its own live User |
| BrokerLink.LoadNeverGrows | net/netServiceConnector.cpp:52-79 | connects in flight or promised plus sessions not yet reported closed never exceed the sessions asked for, in every interleaving |
| BrokerLink.AtMostOneLink | lobbysvr/brokerConnector.cpp:36-56 | from one tryConnect(1) they never exceed 1 |
| BrokerLink.LoadSurvives | lobbysvr/brokerConnector.cpp:157-165 | a connect is in flight or a session unreported exactly while no reconnect has thrown |
| BrokerLink.EverySessionRuns | net/netServiceConnector.cpp:147-161 | what a history does to any session, those of reconnects included, is a run of a connection with the connector's parser and keep-alive setting |
| LinkLife.LinkSurvives | lobbysvr/brokerConnector.cpp:36-56 | the link is connecting, open with a reader or closing with its close on its way exactly in the histories where no reconnect threw, no posted close's shutdown failed, and no connection that lost its reader to a failed shutdown is still open |
| LinkLife.LinkGetsStuck | net/connectionImpl.cpp:317-338 | a concrete run without an exception after which the link does not live, nor in any continuation |
| ConnectChain.ChainAccounts | net/netServiceConnector.cpp:163-211 | whether or not the receiver reconnects: onConnect calls made and owed by the chain of connectWait(n) never exceed n, and total n exactly while no connect of it has failed and going on with it has not thrown |
| ConnectChain.FinishedChain | net/netServiceConnector.cpp:193-208 | a finished chain has made exactly n onConnect calls if and only if it was unbroken |
| ConnectChain.FailureStopsTheChain | net/netServiceConnector.cpp:171-184 | whether or not the receiver reconnects: a failed connect raises one onConnectFailed, and its chain makes no onConnect or onConnectFailed call in any continuation |
| ConnectChain.ChainFrom | net/netServiceConnector.cpp:163-211 | the account holds from any point on for every chain, those of reconnects included, whatever other chains meet |
| ConnectChain.LinkAccounts | net/netServiceConnector.cpp:52-79 | all chains together: onConnect calls made and owed are those owed at first and those of renewed connects, less what failures took away |
| BrokerUsers.WhenCallbacksTakeTurns | lobbysvr/brokerConnector.cpp:25-42 | onConnect and onClose strictly alternate, on the same connection, exactly if no connection closes before its onConnect |
| BrokerUsers.WhenUsersAreFreedOnce | lobbysvr/brokerConnector.cpp:25-42 | for every connectWait(n) and every history: a ConnectorUser is deleted twice exactly if an onClose came while m_user pointed to a deleted one, and leaked exactly if an onConnect came while it pointed to a live one |
| BrokerUsers.UsersAreFreedOnce | lobbysvr/brokerConnector.cpp:25-42 | for one tryConnect(1) where no connection closes before its onConnect there is neither, and a ConnectorUser is live exactly while the line is up and is m_user |
| BrokerUsers.EarlyClose | net/netServiceConnector.cpp:187-188 | the first close that comes too early deletes a ConnectorUser again exactly if one had been deleted before |
| BrokerUsers.DeletedTwice | net/netServiceConnector.cpp:187-188 | a concrete run in which that happens, with the deployed setting of no keep-alive time (lobbysvr/main.cpp:103-106) |
| Broker.BrokerConnector.React | net/netServiceConnector.cpp:163-211 | any event: the link owes no more than before, a link of one stays one exactly unless a reconnect throws, and the account of m_user is kept |
| Broker.ConnectWait | net/netServiceConnector.cpp:43-79 | an object taken through any history of connectWait(n): never more than n connects in flight and unreported sessions, double deletes and leaks exactly as the callbacks' order says |
| Broker.BrokerConnector.OnConnectCallback | lobbysvr/brokerConnector.cpp:25-34 | m_user becomes a live ConnectorUser that never was before; one is left behind exactly if m_user pointed to a live one |
| Broker.BrokerConnector.OnCloseCallback | lobbysvr/brokerConnector.cpp:36-42 | m_user points to no live ConnectorUser afterwards; one is deleted a second time exactly if m_user pointed to a deleted one; the link owes one session more unless the reconnect throws |
| DateTimes.IntIsRead | lobbysvr/mysql+++/polyfill/datetime.h:60-68 | extracting a printed int, padded or not, in front of a non-digit gives the int and stops there |
| DateTimes.Reread | lobbysvr/mysql+++/polyfill/datetime.h:54-109 | what is read back of any date-time whose time brings no minus of its own: all fields, seconds truncated |
| DateTimes.RoundTrip | lobbysvr/mysql+++/polyfill/datetime.h:54-109 | from_sql after to_sql(false) recovers the flags and every active field exactly if the seconds are whole and a time without a date has no negative field |
| DateTimes.MutableDateTime.ToText | lobbysvr/mysql+++/polyfill/datetime.h:82-109 | the stream's fill and width, used up by each insertion, give the text of ToSql |
| DateLayout.SqlStands | lobbysvr/mysql+++/polyfill/datetime.h:82-109 | that text character by character: month and hour from 0 to 9 take two characters with a zero first, every other field no more than its digits and sign, and the separators stand between them |
| DateLayout.IntIsReadAnywhere | lobbysvr/mysql+++/polyfill/datetime.h:60-78 | extracting an int from any text with a number: leading spaces, either sign, leading zeros, clamped and failed out of range |
| DateLayout.FractionIsRead | lobbysvr/mysql+++/polyfill/datetime.h:78-78 | seconds with a decimal point are read as the decimal fraction they spell |
| DateTimes.MutableDateTime.ReadFrom | lobbysvr/mysql+++/polyfill/datetime.h:54-80 | from the text to_sql(false) prints for a date-time it recovers, into any object, exactly those that can be recovered |

## Left out

- The parsers with encryption (lobbysvr/packetParserJson.cpp:45-171, net/packetParserSimple.cpp:24-150), key exchange and AES: their cryptographic calls are opaque and the framing around them is the one modelled.
- Compression in lobbysvr/lobbyUser.cpp and the commented-out code: not compiled.
- The text of JSON bodies, the URL tables' handlers and logging: a body is bytes, a dispatch is recorded as url and body. Log statements that ask a closed socket for its remote endpoint may throw; the model's callbacks do not.
- Handlers are taken not to throw, except the head read of the broker's readJsonPacket, which does and is modelled; what a process does after an exception left a handler is not.
- Boost.Asio, sockets, threads and the clock: completions, error codes, shutdown results and timer expirations are arbitrary events. The strand is a FIFO queue that runs one handler at a time.
- Lifecycle.OnDispatch: reserves a close where noHandler was called; the close readJsonPacket reserves for a lobby part under 40 bytes is among those that may be reserved at any time.
- start_accept and start_connect are one step each: a read handler on another thread before `_status = open` is not modelled.
- The lifetime of the local buffer given to async_write and of the `this` bound into timer handlers: the wire is the bytes present when send is called.
- MessageProcedure::registMessage and the two handler tables: the set of registered codes is a parameter of the parser.
- Registry.Unregister: what a deleteUser of a dead User would read from it is undefined; the second delete is recorded, and shown not to happen.
- JsonPackets.CString: a url field without a NUL is reported as such; the source then reads on behind the array.
- Buffers.MessageBuffer.Peek: the source's pointer arithmetic for a count near the end of the address space is not modelled.
- Framing.ParserAcceptsExactlyStreams: for byte strings shorter than 2^32 - 7; a MessageBuffer holds 32768.
- Lifecycle.PendingCounts: the exact number is stated below 2^32 buffers that were refused or threw; beyond, the invariant gives it modulo 2^32.
- Lobby.LobbyUserManager.ReceiverByUserIDX: the source takes the connection under the lock and uses its User afterwards; nothing is claimed about a close in between. The same holds for sendPacketFromBroker.
- Registry.WhenNothingEverDangles: who logs in and who writes m_userIDX is left to the history; the repository's own login code no longer calls userLogined. Writes go to live Users only.
- Sends through m_user after a close, when it points to a deleted ConnectorUser: no claim.
- accept_handler with an error: it arms no further accept; accepts here simply happen or do not.
- connectImplement_sync, netServiceImpl's update timer and worker threads: no state of their own beyond what is modelled.
- DateTimes.RoundTrip: seconds are real numbers; float rounding, the undefined conversion of seconds beyond int, exponents in a number's text, and the default to_sql with three significant digits are not modelled.
- The database wrapper, configuration, crash dumps, keyboard and watchdog code: input and output or single-branch logic.
