# PSM, verified model

PSM monitors the processes of Windows machines. An agent on each machine samples performance
counters; a server keeps the agents' lists and samples in Redis; a Django site shows them and
changes what is watched. This project models the four parts of it that hold a protocol, a state
machine or arithmetic, and proves what each of them is for.

- **RESP** (`Bytes`, `RespDecoder`, `RespMachine`, `RedisParser`, `Fragmentation`, `RedisClient`). The
  Redis client library parses replies with a resumable parser: 14 lexical states, and native
  recursion for nested arrays that is unwound onto two stacks when a read ends. `RedisParser` keeps
  the fields and the control flow of the C++ class. It is proved equal to a byte automaton, the
  automaton to a plain recursive-descent decoder, and the decoder inverse to the encoder, so no cut
  of a stream into reads matters, for well-formed and for malformed bytes. On top of it stand the
  command printer, the blocking command, and the pipelined client in which reply k meets handler k.
- **Sessions** (`Session`, `Heartbeat`, `Delivery`, `Records`, `Disconnect`, `Departure`,
  `LateWrites`, `AgentServer`, `LogicHandle`). Agents register by token, are numbered in Redis, fetch
  their lists in lockstep, and are told of every change the web makes; silent ones are evicted.
  `Session` is the protocol as a state machine over FIFO channels, with an invariant over every run;
  `AgentServer` carries the handlers out with the loops and branches of the source, each proved to be
  one step of the machine and to keep its invariant; `Delivery` counts what is sent against what
  arrives. `Records` and `Disconnect` split every access to an agent's record into its read and its
  write, on the logic thread and in the calls that a disconnection makes on its own thread;
  `Departure` says exactly what the records then show, and `LateWrites` holds the inputs.
  `LogicHandle` is the queue in front of the handlers.
- **Framing** (`Framing`). The receive handler that the three sockets share reassembles
  length-prefixed frames in a fixed array with two counters.
- **Time series** (`TimeSeries`, `History`, `Averages`, `Snapshot`). Samples are compressed per batch,
  stored newest first, windowed, expanded, averaged and summed; process snapshots are grouped, joined
  and split again. The round trips run across agent, server and web side.

Some promises do not hold of the code as it is. The code is modelled unchanged, and each of these
comes with an input that shows it and with the exact condition under which the promise holds:

- an error in a resumed nested array leaves the outer arrays suspended, and the next reply is then
  misread (`CleanAfterError`, `ResidueExactly`; input: `ErrorLeavesOuterArray`, `MisreadAfterError`);
- a web command for token -1 reaches a socket that has not registered yet, and the agent then
  watches a process that is not in its list (`StraysComeFromTheWeb`, `ReplicaConvergence`; input:
  `StrayCommandDiverges`);
- signals of the packet queue coalesce, and packets are then left waiting (`Dispatch`; input:
  `SignalsCoalesce`);
- batches longer than responseTime + 1 are not restored in general (`LosslessExactly`; input:
  `ConstantIsLost`), nor are series in which the sentinel -1 occurs among other values
  (`SentinelExactly`; input: `SentinelIsLost`); `RestoredExactly` says which single series are;
- the fetch limit cuts off the beginning of a window when newer samples than its end are stored
  (`WindowIsWhole`, `EverySecondKept`; input: `WindowLosesItsBeginning`);
- the recent average divides by zero for a response time of 0 (`DivisionIsSafeExactly`; input:
  `ZeroResponseTime`);
- a record is read and written by two commands, so the record of an agent that has gone may say on or
  recording (`GoneExactly`, and for every agent and run `FlagsExactly`; inputs: `LateWriteStaysOn`,
  `LateRegistrationStaysOn`).

A RESP null array is read as an empty array, unlike a null bulk string; the model does the same.

## Model

| member | source | states |
|---|---|---|
| RedisParsers.RedisParser.Parse | redisLib/lib/redisparser.cpp:20-26 | one call, on any bytes and from any state between calls, gives the verdict, the count, the value and the suspended arrays of a run of the byte machine; Incompleted takes all of a read, a verdict takes at least one byte; the mutual recursion with parseArray and parseChunk ends |
| RedisParsers.RedisParser.ParseArray | redisLib/lib/redisparser.cpp:28-60 | popping the outermost array first and pushing it back on the way out resumes and re-suspends exactly the arrays that are open, outermost on top; after an error exactly the arrays around the one that was being completed stay behind |
| RedisParsers.RedisParser.ParseElements | redisLib/lib/redisparser.cpp:62-109 | the element loop makes of the remaining bytes what a run inside one open array makes of them, with nothing suspended while it loops; the saved count still includes the unfinished element |
| RedisParsers.RedisParser.ParseElement | redisLib/lib/redisparser.cpp:79-103 | one turn of the element loop: an element that is complete leaves the array missing one less, one that is not is suspended inside the array, and a bad byte ends both |
| RedisParsers.RedisParser.SuspendArray | redisLib/lib/redisparser.cpp:62-75 | input used up: an array with nothing missing is a value, another one is saved with its elements and what it misses (at least one) |
| RedisParsers.RedisParser.PushArray | redisLib/lib/redisparser.cpp:91-95 | an array that is pushed is outside all that are suspended already |
| RedisParsers.RedisParser.ParseChunk | redisLib/lib/redisparser.cpp:111-449 | the byte loop is a run of the byte machine with no array open, and it meets state Bulk only at the first byte of a call |
| RedisParsers.RedisParser.ReadOn | redisLib/lib/redisparser.cpp:115-446 | one turn of the loop moves forward and leaves the outcome of the rest of the run unchanged |
| RedisParsers.RedisParser.ReadBulkSizeLF | redisLib/lib/redisparser.cpp:226-280 | a length of -1 is nil, another negative one an error; copying the available payload at once equals reading it byte by byte |
| RedisParsers.RedisParser.ReadBulk | redisLib/lib/redisparser.cpp:281-305 | the resumed payload copy takes the canRead bytes at the front of the read, as many single steps would, and stays in Bulk only when the read is used up |
| RedisParsers.RedisParser.ReadArraySizeLF | redisLib/lib/redisparser.cpp:353-369 | which sizes give an empty array, an error, or an array to open |
| RedisParsers.RedisParser.OpenArray | redisLib/lib/redisparser.cpp:373-391 | an array that begins in the middle of a read is a run inside one new frame, also when the read ends right behind its header |
| RedisParsers.RedisParser.ReadByte | redisLib/lib/redisparser.cpp:119-225 | in the states that look at one byte and at nothing else, the new state, the value pushed and the rejected bytes are those of one step of the byte machine |
| RedisParsers.RedisParser.ReadLineByte | redisLib/lib/redisparser.cpp:121-198 | the same for a type byte and the bytes of a line |
| RedisParsers.RedisParser.ReadTerminator | redisLib/lib/redisparser.cpp:306-329 | the same for the bytes that only one character may be |
| RedisParsers.RedisParser.Result | redisLib/lib/redisparser.cpp:451-466 | the value on top is taken and nothing else is lost; an empty stack gives nil |
| RedisParsers.RunInsideOne | redisLib/lib/redisparser.cpp:41-60 | an enclosing array sees its inner arrays only through the value they produce |
| RedisParsers.NextElement | redisLib/lib/redisparser.cpp:79-103 | one element consumes its bytes and leaves the array missing one less |
| RedisParsers.PayloadBlock | redisLib/lib/redisparser.cpp:253-287 | a block copy of payload bytes equals that many byte steps, for any split of the payload |
| RespMachine.RunIsDecode | redisLib/lib/redisparser.cpp:20-449 | the byte machine reaches exactly the verdict, value and offset of a plain recursive-descent decoder, on arbitrary bytes |
| RespMachine.RunAppend | redisLib/lib/redisparser.cpp:28-449 | reading a then b is reading their concatenation |
| RespMachine.RunInside | redisLib/lib/redisparser.cpp:28-109 | open arrays take no part in a run until what is inside them has produced its value, and then receive exactly that value |
| RespMachine.RunBounds | redisLib/lib/redisparser.cpp:111-449 | a run that ends has taken at least one byte and no more than there are |
| RespMachine.ItemsRun | redisLib/lib/redisparser.cpp:77-108 | the elements of an array are decoded as the recursive decoder does |
| RespMachine.PayloadRun | redisLib/lib/redisparser.cpp:281-329 | payload and its CR LF are decoded as the recursive decoder does |
| RespDecoder.DecodeInvertsEncode | redisLib/lib/redisparser.cpp:111-449 | round trip: an encoded reply of any depth decodes to its value and its exact length, whatever follows; a null array arrives as an empty one |
| RespDecoder.DecodeItemsInvertsEncodeAll | redisLib/lib/redisparser.cpp:77-108 | the same for the elements of an array |
| RespDecoder.TextLines | redisLib/lib/redisparser.h:34-42 | status and error lines, byte by byte: 7-bit bytes that are no control characters are decoded to themselves and to their exact length, whatever follows; the first other byte is refused at its place, and so is a CR without its LF |
| RespDecoder.NumberLines | redisLib/lib/redisparser.cpp:176-198 | length and integer lines: digits and minus signs, at least one of them; the first other byte is refused at its place |
| RespDecoder.OddLengths | redisLib/lib/redisparser.cpp:234-248 | lengths below -1 are refused at the end of their line, of bulk strings and of arrays; -1 is nil or an empty array, and 0 an empty array |
| RespDecoder.UnknownType | redisLib/lib/redisparser.cpp:141-144 | any other first byte is refused at once |
| RespDecoder.PayloadEnds | redisLib/lib/redisparser.cpp:306-329 | a payload that is not followed by CR LF is refused at the first byte that is neither |
| RespDecoder.BadElement | redisLib/lib/redisparser.cpp:85-88 | a bad byte in an element of an array ends the array, at its place behind the elements before |
| RespDecoder.KnownReplies | redisLib/lib/redisparser.cpp:123-140 | one reply of each kind, byte for byte |
| Bytes.StrtolInvertsDecimal | redisLib/lib/redisparser.cpp:230-231 | strtol inverts decimal printing if and only if the number fits a 32-bit long |
| Bytes.StrtolStops | redisLib/lib/redisparser.cpp:230-231 | strtol stops at the first character that is no digit, and a number outside the 32-bit range becomes the nearest one inside |
| Bytes.DecimalIsCanonical | redisLib/lib/redisclientimpl.cpp:163-176 | lexical_cast prints no leading zero |
| Fragmentation.ResumeMeetsDecoder | redisLib/lib/redisparser.cpp:20-109 | one call in the middle of a reply reaches the verdict, at the place, of decoding everything in one piece |
| Fragmentation.FeedMeetsDecoder | redisLib/lib/redisparser.cpp:20-449 | fragmentation independence on arbitrary, also malformed, bytes: cut anywhere, a stream is judged like the whole, in the read that holds the deciding byte |
| Fragmentation.EncodingInPieces | redisLib/lib/redisparser.cpp:20-449 | every cut of an encoded reply into non-empty reads is answered Incompleted up to the last read, and Completed with the value at its last byte |
| Fragmentation.DecodeIsStable | redisLib/lib/redisparser.cpp:111-449 | a verdict is not changed by bytes that follow |
| Fragmentation.PrefixNeedsMore | redisLib/lib/redisparser.cpp:448-448 | the beginning of a reply is neither a reply nor an error |
| Fragmentation.StreamStep | redisLib/lib/redisparser.cpp:20-109 | one call in the middle of a stream of replies adds at most one reply to what the stream says, and loses nothing |
| Fragmentation.DecodeAllAppend | redisLib/lib/redisclientimpl.cpp:262-284 | a stream may be decoded read by read from the unfinished reply on |
| Fragmentation.StreamOfReplies | redisLib/lib/redisclientimpl.cpp:262-284 | a stream of encoded replies, and the beginning of one more, is exactly those replies and that beginning |
| Fragmentation.BulkSuspension | redisLib/lib/redisparser.cpp:249-305 | between two reads of a bulk string, the prefix read and the count still missing add up to the declared length |
| Fragmentation.ArraySuspension | redisLib/lib/redisparser.cpp:85-96 | between two reads of an array, at any depth, its saved count is the declared one less its complete elements, and what it contains is suspended inside it |
| Fragmentation.ResidueExactly | redisLib/lib/redisparser.cpp:43-51 | what an error leaves behind: exactly the arrays around the one that was being completed when the byte was rejected, whose own elements had all been completed up to that one |
| Fragmentation.CleanAfterError | redisLib/lib/redisparser.cpp:45-51 | every possible error leaves a clean parser if and only if at most one array was suspended before the call |
| Fragmentation.ErrorLeavesOuterArray | redisLib/lib/redisparser.cpp:45-51 | an input after which an error leaves an array behind |
| Fragmentation.MisreadAfterError | redisLib/lib/redisparser.cpp:28-109 | what that does: the next reply, whatever it is, is taken for an element of the abandoned array |
| RedisClients.MakeCommand | redisLib/lib/redisclientimpl.cpp:163-184 | the bytes appended piece by piece are the RESP encoding of an array of the arguments as bulk strings |
| RedisClients.KnownCommand | redisLib/lib/redisclientimpl.cpp:163-184 | a command of two arguments, byte for byte |
| RedisClients.CommandRoundTrip | redisLib/lib/redisclientimpl.cpp:163-184 | parsing a printed command under any cut into reads yields exactly its arguments, empty ones and ones with CR or LF included |
| RedisClients.ReadStep | redisLib/lib/redisclientimpl.cpp:211-230 | read number k, from any state in which the reads before it have left the parser, is judged like the whole input |
| RedisClients.ParseOne | redisLib/lib/redisclientimpl.cpp:213-220 | one call of the parser, and of result after a value, leaves no value untaken and the state of a run |
| RedisClients.SyncClient.ParseRead | redisLib/lib/redisclientimpl.cpp:211-230 | the inner loop calls the parser once for each read: Incompleted has taken everything |
| RedisClients.SyncClient.DoSyncCommand | redisLib/lib/redisclientimpl.cpp:186-233 | from any parser state an earlier command may have left: the answer of one run over the whole input, at the read that holds the deciding byte and no earlier or later; what follows that byte in the read is dropped, and nothing is lost if and only if the read ends with it; after a value the parser is as good as new, after an error if and only if no array was left behind; it waits exactly while the input is an unfinished reply; a failed write reads nothing |
| RedisClients.SecondReplyIsDropped | redisLib/lib/redisclientimpl.cpp:216-219 | of two replies in one read, the second is dropped whole |
| RedisClients.AsyncClient.constructor | redisLib/lib/redisclientimpl.cpp:147-161 | a connected client is idle, in step, and has a read posted |
| RedisClients.AsyncClient.DoAsyncCommand | redisLib/lib/redisclientimpl.cpp:235-252 | issuing keeps the invariant: a write is in flight if and only if the queue is non-empty, it carries the front, bytes sent and still to be sent are the issued commands in order, and reply k has gone to handler k as long as no reply came unexpected, whatever happened to writes and reads |
| RedisClients.AsyncClient.AsyncWrite | redisLib/lib/redisclientimpl.cpp:126-145 | a completed write sends the front command and starts the next, a failed one may have sent any part of it; the invariant stays |
| RedisClients.AsyncClient.DoProcessMessage | redisLib/lib/redisclientimpl.cpp:106-123 | however many replies were dispatched before, the next one keeps them matched: the k-th reply with the k-th handler, the surplus with the error handler |
| RedisClients.AsyncClient.AsyncRead | redisLib/lib/redisclientimpl.cpp:254-286 | a read of any bytes dispatches every reply it completes, in order: the first ones one each to the handlers that wait, each of the others reported as it is, a malformed byte reported last, and reading stops exactly there; as long as no reply came unexpected, call number k was made to the handler of command number k with reply number k of the stream |
| RedisClients.AsyncClient.ReadReplies | redisLib/lib/redisclientimpl.cpp:262-284 | the loop over one read ends and discards nothing |
| RedisClients.AsyncClient.NextReply | redisLib/lib/redisclientimpl.cpp:264-273 | one parser call extends the decoded stream by exactly one reply or by none |
| RedisClients.OneMoreReply | redisLib/lib/redisclientimpl.cpp:108-122 | serving the front handler keeps the k-th handler matched with the k-th reply |
| RedisClients.MatchAppend | redisLib/lib/redisclientimpl.cpp:235-286 | matching goes on where it stopped, and later commands do not disturb earlier matches |
| RedisClients.StillMatched | redisLib/lib/redisclientimpl.cpp:235-286 | without surplus, all replies so far are matched to all handlers so far |
| RedisClients.AsyncClient.RepliesStayInOrder | redisLib/lib/redisclientimpl.cpp:254-286 | what a read dispatches continues what was in order before |
| Session.ReplicaConvergence | AgentServer/AgentServer/WebCommandSocket.cpp:154-171 | over every run: what a registered agent will watch once its messages have arrived is, apart from stray names, part of the Redis set until its list is sent, and from then on equals the Redis set if and only if no stray name is left |
| Session.StraysComeFromTheWeb | AgentServer/AgentServer/WebCommandSocket.cpp:151-161 | a step creates a stray name if and only if it is a web command that adds a new name for token -1 while a listed socket has not registered |
| Session.AddressedRunsHaveNoStrays | AgentServer/AgentServer/WebCommandSocket.cpp:154-171 | with web commands for real tokens only, no stray name ever appears |
| Session.ConvergenceOfAddressedRuns | AgentServer/AgentServer/WebCommandSocket.cpp:154-171 | so in these runs what a registered agent will watch is part of the Redis set until its list is sent and equals it from then on, without exception |
| Session.StrayCommandDiverges | AgentServer/AgentServer/WebCommandSocket.cpp:151-161 | a run of seven steps after which an agent watches a process that is not in its Redis list |
| Session.StepKeepsInv | AgentServer/AgentServer/AgentSocket.cpp:142-249 | every step of server, agent, web side, connection, record update and heartbeat keeps numbering, exclusive tokens, lockstep and convergence |
| Session.RunKeepsInv | AgentServer/AgentServer/AgentSocket.cpp:142-249 | so does every run |
| Session.IdentityOverRuns | AgentServer/AgentServer/RedisManager.cpp:102-212 | agent numbers are exactly 0 .. n-1, one per token, never changed later, and no two listed sockets share a token other than -1, with stale writes of any record update landing at any time |
| Session.WriteStateKeepsInv | AgentServer/AgentServer/RedisManager.cpp:150-194 | writing back a stale record, of any of the three updates, keeps all of that |
| Session.UpdateUninterrupted | AgentServer/AgentServer/RedisManager.cpp:150-194 | an update that nobody interrupts changes the flag it is about, of this record, and nothing else |
| Session.GrantedExactly | AgentServer/AgentServer/AgentSocket.cpp:152-171 | a registration is granted if and only if no listed socket carries the token; a refusal leaves Redis alone, and token -1 is always refused |
| Session.HandshakeLockstep | AgentClient/AgentClient/AgentClientSocket.cpp:217-283 | over every run at most one handshake message of a connection is in transit, and StartRecord is on its way only after the three lists were taken over in order |
| Session.GrantKeepsInv | AgentServer/AgentServer/AgentSocket.cpp:152-171 | a granted registration keeps the invariant |
| Session.RefusalKeepsInv | AgentServer/AgentServer/AgentSocket.cpp:158-162 | a refused one does too |
| Session.ListRequestKeepsInv | AgentServer/AgentServer/AgentSocket.cpp:306-333 | sending the list, filled with the defaults if empty, turns containment into equality for the asking agent and disturbs no other |
| Session.OtherRequestsKeepInv | AgentServer/AgentServer/AgentSocket.cpp:179-241 | counter lists, readiness, record responses and health acks keep the invariant |
| Session.WebKeepsInv | AgentServer/AgentServer/WebCommandSocket.cpp:144-178 | an ADDLIST or DELETELIST keeps every agent converging, whether its agent is connected, at any stage of the handshake, or not |
| Session.ToldKeepsOrder | AgentServer/AgentServer/AgentSocket.cpp:251-261 | a change sent behind what is already on its way arrives after it |
| Session.AgentStepOk | AgentClient/AgentClient/AgentClientSocket.cpp:207-371 | a handler of the agent keeps lockstep |
| Session.AgentStepArrives | AgentClient/AgentClient/AgentClientSocket.cpp:236-339 | handling a message changes nothing about what the agent will watch in the end |
| Session.AcceptKeepsInv | AgentServer/AgentServer/AgentSocket.cpp:85-105 | a new connection keeps the invariant |
| Session.HeartbeatKeepsInv | AgentServer/AgentServer/TcpAgentServer.cpp:105-141 | both phases of a heartbeat keep the invariant |
| Session.InitNumbered | AgentServer/AgentServer/RedisManager.cpp:102-148 | registering a new token extends the numbering by the next number, and a known one keeps it |
| Heartbeat.HeartbeatExact | AgentServer/AgentServer/TcpAgentServer.cpp:105-141 | over every run between the phases, the second one disconnects exactly the listed sockets that were listed at the first and not heard of since; one accepted in mid-round never |
| Heartbeat.StepBetween | AgentServer/AgentServer/AgentSocket.cpp:236-241 | only a HealthAck of the socket itself, or its replacement, saves it |
| Deliveries.RecordingsExactly | AgentServer/AgentServer/AgentSocket.cpp:208-216 | over every run: the recordings an agent has started and the StartRecords on their way are exactly one of the machine, then one of the processes, once the handshake is over, and none before; what it has started is what it has reported and what its reports on the way say; and it is registered under its own token or not at all |
| Deliveries.AtRest | AgentClient/AgentClient/AgentClientSocket.cpp:217-301 | over every run: a registered agent with nothing on its way in either direction has taken over the three lists in order, has started both recordings, which the server knows, is heard of, and watches the process list of Redis and stray names |
| Deliveries.AnsweringAgentsStay | AgentServer/AgentServer/TcpAgentServer.cpp:105-141 | over every run: whom the second phase of the heartbeat disconnects still has a health check or its acknowledgement on the way; an agent that has handled its channel, and whose answers have been handled, stays |
| Deliveries.OnlyTheHeartbeatDisconnects | AgentServer/AgentServer/TcpAgentServer.cpp:126-135 | no other step marks a socket for disconnection |
| Deliveries.StepDelivers | AgentServer/AgentServer/AgentSocket.cpp:142-249 | every step keeps the counts behind these: nothing that was asked for is lost, sent twice, or not sent |
| Disconnects.FlagsOfLiveAgents | AgentServer/AgentServer/AgentSocket.cpp:107-120 | over every run in which the five calls of a disconnection, the reads and writes of the handlers that change a record, and the packets of removed sockets interleave with everything else: the record of a registered agent that is not being disconnected says that it is on, and that it records from the moment it was told to; no update of an earlier connection of the agent is still pending |
| Disconnects.MovesKeepOrder | AgentServer/AgentServer/AgentSocket.cpp:107-120 | the invariant behind it, the protocol invariant included: a record that was read and not written belongs to one socket in mid-disconnection, or to the one handler under way, whose token nobody else can get |
| Disconnects.EndKeepsInv | AgentServer/AgentServer/AgentSocket.cpp:142-249 | a handler that writes the record it read some time ago, for a socket that is listed or not any more, keeps numbering, exclusive tokens, lockstep and convergence |
| Disconnects.AllowedIsQuiet | AgentServer/AgentServer/AgentSocket.cpp:142-249 | no other step changes a record, a token, or the oldest packet under way |
| Records.FlagsAfter | AgentServer/AgentServer/RedisManager.cpp:150-194 | what a chain of updates makes of the two flags: the last update that sets or clears a flag decides |
| Records.DisconnectAndHandler | AgentServer/AgentServer/RedisManager.cpp:150-194 | a disconnection and one handler on one record, in any order of their reads and writes: when each flag is set in the end, if and only if |
| Departures.FlagsExactly | AgentServer/AgentServer/RedisManager.cpp:150-194 | over every run, for every agent, connected or gone: its record is on, or recording, if and only if the last update that concerns the flag sets it, among the updates that are not lost; which these are is read off the order of reads and writes |
| Departures.CallsAreLogged | AgentServer/AgentServer/AgentSocket.cpp:107-120 | the four record accesses of a registered agent's disconnection stand in the log in order, whatever happens between them |
| Departures.GoneExactly | AgentServer/AgentServer/AgentSocket.cpp:107-120 | the record of an agent that has gone: off and not recording if no handler writes it after the first call; with one handler, it is on if and only if the handler's write falls between the two updates or behind both, and it registered or had read the record before the first update; it says recording if and only if the write falls behind both, and the handler started the recording or had read that before the second update |
| LateWrites.HeldRecordReturns | AgentServer/AgentServer/RedisManager.cpp:162-179 | from every state in which AgentReady is next: its handler reads the record, the agent goes, the handler writes, and the record of the agent that has gone says on and recording |
| LateWrites.LateWriteStaysOn | AgentServer/AgentServer/RedisManager.cpp:162-179 | a run from the first connection on that ends so |
| LateWrites.LateRegistrationStaysOn | AgentServer/AgentServer/LogicHandle.cpp:51-60 | a run in which a registration is handled behind the removal of its socket, and the record says on with nobody connected |
| AgentServers.AgentServer.InitAgent | AgentServer/AgentServer/RedisManager.cpp:102-148 | a new token gets a number greater than all others and is not recording, a known one keeps its number and its recording flag, the agent is on, no other record changes, and the numbering 0 .. n-1 stands |
| AgentServers.AgentServer.GetAgentID | AgentServer/AgentServer/RedisManager.cpp:197-212 | the number of a known token, which is no other token's; -1, which is nobody's, for an unknown one |
| AgentServers.AgentServer.GetProcessList | AgentServer/AgentServer/RedisManager.cpp:214-260 | the list is the set as it was or, if that was empty, the three default processes; the set is then the list, and no other set changes |
| AgentServers.AgentServer.SetProcessName | AgentServer/AgentServer/RedisManager.cpp:583-595 | true if and only if the name is new; then every agent with another list is in order as before, and those with this one are as soon as one ADDLIST is sent to them |
| AgentServers.AgentServer.RemProcessName | AgentServer/AgentServer/RedisManager.cpp:621-633 | true if and only if the name was there; then one DELETELIST to those with this list is all that is missing |
| AgentServers.ChangeNeedsOneMessage | AgentServer/AgentServer/WebCommandSocket.cpp:154-171 | a change of one list disturbs nobody with another, and one message repairs the rest |
| AgentServers.AgentServer.GetAgentSocketByToken | AgentServer/AgentServer/TcpAgentServer.cpp:88-101 | the first listed socket with the token, and NULL only if none has it |
| AgentServers.AgentServer.DeleteAgent | AgentServer/AgentServer/TcpAgentServer.cpp:66-71 | the socket, and no other, leaves the list, in order |
| AgentServers.AgentServer.HeartbeatAsk | AgentServer/AgentServer/TcpAgentServer.cpp:112-120 | the first phase of a round: the channel of every listed socket grows by one health check, its flag is cleared, and nothing else changes |
| AgentServers.AgentServer.HeartbeatEvict | AgentServer/AgentServer/TcpAgentServer.cpp:126-135 | the second phase: exactly the listed sockets whose flag is still cleared are marked for disconnection, and no channel changes |
| AgentServers.AgentServer.AgentPacketHandling | AgentServer/AgentServer/AgentSocket.cpp:142-249 | every branch of the handler is the protocol step of its message and keeps the protocol invariant and all numbers; exactly the answer of its message is sent, on AgentReady one StartRecord of each kind; an agent is told to record when its record says so, and is sent the list that it will have; only an acknowledgement counts as being heard of |
| AgentServers.AgentServer.AnswerAgentIDRequest | AgentServer/AgentServer/AgentSocket.cpp:152-172 | registration, refused or granted, is the protocol step |
| AgentServers.AgentServer.SendProcessListResponse | AgentServer/AgentServer/AgentSocket.cpp:306-333 | answering with the list is the protocol step |
| AgentServers.AgentServer.ProcessCommandRequest | AgentServer/AgentServer/WebCommandSocket.cpp:144-178 | the handler is the protocol step of the web command and keeps the invariant; the name is in the list of the agent or it is not, as the command says, and no other list changes; the one registered socket with the token is sent exactly this change, if there is one; the response names the command, and says success if and only if the Redis set has changed |
| AgentServers.AgentServer.Tell | AgentServer/AgentServer/WebCommandSocket.cpp:156-169 | only the live socket with the token, if there is one, is sent the change, and its agent will watch the name, or will not, when everything has arrived |
| AgentServers.AgentServer.ClientPacketHandling | AgentClient/AgentClient/AgentClientSocket.cpp:207-371 | every branch of the agent's handler is the protocol step of its message and keeps the invariant; exactly the answer of its message is sent, a RecordResponse of its kind and a HealthAck among them; and what the agent will watch in the end stays as it was |
| AgentServers.FindIgnoresLists | AgentServer/AgentServer/WebCommandSocket.cpp:154-171 | looking for the socket before or after the Redis change makes no difference |
| Framing.FrameReceiver.constructor | AgentServer/AgentServer/AgentSocket.cpp:95-104 | the first read asks for the four bytes of a header, into a buffer of 8192 |
| Framing.FrameReceiver.RecvProcess | AgentServer/AgentServer/AgentSocket.cpp:22-74 | for every completion size exactly the complete frames of the stream are enqueued, in order; position + remainBytes is a header or the announced frame; a read asks for at least one byte; it stays in the buffer if and only if the announced frame does |
| Framing.ReceiveMessages | AgentServer/AgentServer/WebCommandSocket.cpp:22-74 | messages with bodies up to 8188 bytes arrive whole and in order under all completion sizes, nothing else arrives, and no read leaves the buffer; a handler that reads length, type and body from each packet gets back each message |
| Framing.DeframeInvertsPack | AgentClient/AgentClient/AgentClientSocket.cpp:98-149 | the frames of any messages, one after another, are exactly those messages |
| Framing.UnpackInvertsPack | AgentServer/AgentServer/CPacket.h:6-14 | length, type and body read from a packet, low bytes first, are those of the message |
| Framing.KnownPackets | AgentServer/AgentServer/CPacket.h:6-14 | two packets, byte for byte |
| Framing.DeframeAppend | AgentClient/AgentClient/AgentClientSocket.cpp:98-149 | complete frames stay as they are when more bytes follow |
| Framing.DeframeOneRead | AgentServer/AgentServer/AgentSocket.cpp:47-72 | a read that does not overshoot completes at most one frame |
| Framing.CutStream | AgentServer/AgentServer/AgentSocket.cpp:47-72 | wherever the stream is cut, a prefix of the messages has arrived, and the next one fits the buffer |
| LogicHandles.RunKeepsInv | AgentServer/AgentServer/LogicHandle.cpp:21-69 | over every interleaving nothing is lost, nothing is handled twice, and every signal has released the consumer, is about to, or has coalesced |
| LogicHandles.Dispatch | AgentServer/AgentServer/LogicHandle.cpp:30-69 | packets are handled in the order of the pushes; at rest all are handled if and only if no signal has coalesced, and otherwise as many wait as have |
| LogicHandles.SignalsCoalesce | AgentServer/AgentServer/LogicHandle.cpp:25-34 | a run of five steps after which all is signalled, the event is not set, and a packet waits |
| LogicHandles.LogicHandle.PushPacket | AgentServer/AgentServer/LogicHandle.cpp:21-25 | the packet will be handled after all that were pushed before it, and nothing handled or waiting changes |
| LogicHandles.LogicHandle.SetEvent | AgentServer/AgentServer/LogicHandle.cpp:27 | the consumer is released, and as many packets are left without a release of their own as signals have coalesced or are to come |
| LogicHandles.LogicHandle.ProcessOne | AgentServer/AgentServer/LogicHandle.cpp:34-49 | a wake always finds a packet, and it is the first in the order of the pushes that was not handled yet |
| TimeSeries.SendLogs | AgentClient/AgentClient/AgentClientSocket.cpp:555-568 | one batch, with each sample that repeats the value before it left out |
| TimeSeries.CompressKeepsChanges | AgentClient/AgentClient/AgentClientSocket.cpp:555-568 | what is sent of a batch differs from sample to sample, and its first sample from the sentinel |
| TimeSeries.SaveLogs | AgentServer/AgentServer/RedisManager.cpp:507-536 | the key ends up with the new samples in front, newest first; a stored value is the one that was sent, and of the Memory counter of the processes its 1024th part |
| TimeSeries.Record | AgentClient/AgentClient/AgentClientSocket.cpp:548-569 | all batches together leave the kept samples of each, newest first |
| TimeSeries.GetCounterValue | Web/psmWeb/psm/redisJob.py:15-38 | the fetched samples of the window that come before the first one older than it, oldest first; of a list that is newest first, exactly the samples of the window among the newest endTime - startTime + 1 |
| TimeSeries.BreakIsExact | Web/psmWeb/psm/redisJob.py:34-34 | leaving the loop early loses nothing if and only if no sample of the window comes after an older one |
| TimeSeries.ReadNewestFirst | Web/psmWeb/psm/redisJob.py:15-38 | on a list that is newest first the result is the fetched part filtered by the window |
| TimeSeries.GetValueListDetail | Web/psmWeb/psm/redisJob.py:48-69 | the loops expand the window as the specification does |
| TimeSeries.FillSegment | Web/psmWeb/psm/redisJob.py:60-62 | one entry for each second up to the next sample |
| TimeSeries.ExpandAt | Web/psmWeb/psm/redisJob.py:57-67 | one entry for each second from the first sample to the end of the window, with the value of the latest sample unless that is more than responseTime old |
| Histories.KeptStands | AgentClient/AgentClient/AgentClientSocket.cpp:548-569 | every second of the series has, among the kept samples, a latest one of equal value that is younger than the longest batch |
| Histories.LosslessHistory | Web/psmWeb/psm/redisJob.py:48-69 | compress, store, cut out and expand reproduce the series from the first kept sample of the window to its end, if no batch is longer than responseTime + 1 and none begins with -1 |
| Histories.LosslessExactly | Web/psmWeb/psm/redisJob.py:61-61 | that holds for all series and windows if and only if batches have at most responseTime + 1 samples |
| Histories.RestoredExactly | Web/psmWeb/psm/redisJob.py:48-69 | a series is reproduced in every window if and only if, from its first kept sample on, the latest kept sample has the right value and is not too old for each second: one look at each second, and no window |
| Histories.SentinelExactly | AgentClient/AgentClient/AgentClientSocket.cpp:555-560 | batches of at most responseTime + 1 samples with values from a given set are all reproduced in every window if and only if -1 is none of the values or the only one |
| Histories.SentinelIsLost | AgentClient/AgentClient/AgentClientSocket.cpp:555-560 | two batches, the second beginning with the sentinel -1, that are not reproduced |
| Histories.RecordAndShow | Web/psmWeb/psm/redisJob.py:48-69 | from the samples of the agent to the list of the page, for every series: what is shown begins with the first sample of the window, and is that stretch of the original series, second by second and value by value (the 1024th part for the Memory counter of the processes), if batches are short and do not begin with -1, or the series is covered in the sense of RestoredExactly |
| Histories.WindowIsWhole | Web/psmWeb/psm/redisJob.py:18-18 | LRANGE loses nothing of the window if and only if no more than interval + 1 samples were kept, or the newest one not fetched lies before the window, or nothing was kept in the window |
| Histories.EverySecondKept | Web/psmWeb/psm/redisJob.py:18-18 | if no sample repeats the one before, that is: the newest sample is not later than the end of the window, or everything was fetched, or the window holds nothing |
| Histories.WindowLosesItsBeginning | Web/psmWeb/psm/redisJob.py:18-18 | four samples of which a window of two seconds is read without its first |
| Histories.ReadScales | AgentServer/AgentServer/RedisManager.cpp:525-525 | reading scaled samples is scaling what is read |
| Histories.ExpandScales | AgentServer/AgentServer/RedisManager.cpp:525-525 | expanding scaled samples is scaling the expansion |
| Averages.GetRecentValue | Web/psmWeb/psm/redisJob.py:72-96 | on a list that is newest first and for a response time of at least 1, the mean of the window: the sum of all seconds in which a sample is shown, for responseTime seconds at most, is the result times the number of these seconds; 0 for an empty window; it lies between any bounds of the list; and the division fails if and only if responseTime is 0 and the window is not empty |
| Averages.AddUp | Web/psmWeb/psm/redisJob.py:76-94 | the running sum and total are those over all samples, the last one included |
| Averages.WindowIsProper | Web/psmWeb/psm/redisJob.py:15-38 | a window is ascending, lies before its end, and holds samples of the list only |
| Averages.DivisionIsSafeExactly | Web/psmWeb/psm/redisJob.py:79-96 | the total is not 0 if and only if responseTime is at least 1 |
| Averages.ZeroResponseTime | Web/psmWeb/psm/redisJob.py:79-96 | a list of one sample for which the division fails |
| Averages.AverageIsBetween | Web/psmWeb/psm/redisJob.py:79-96 | the total lies between 1 and the time covered, and the average between the smallest and the largest sample |
| Averages.KnownAverage | Web/psmWeb/psm/redisJob.py:79-96 | a window of two samples and its average |
| Averages.ExpandSum | Web/psmWeb/psm/redisJob.py:57-67 | the expanded list sums up each sample for the seconds to the next one, for responseTime + 1 of them at most |
| Averages.CombineList | Web/psmWeb/psm/util.py:12-24 | of two histories with one entry a second: where both have an entry, the sum; where one has, that one; nothing else, ascending |
| Averages.SortedItems | Web/psmWeb/psm/util.py:20-22 | the dictionary as a list, sorted, nothing lost |
| Averages.LastIsAt | Web/psmWeb/psm/util.py:13-19 | on a list with one entry a second, the last entry and the sum of the entries of a second agree |
| Averages.CombinedIsUnique | Web/psmWeb/psm/util.py:12-24 | what CombineList promises of its result determines it |
| Averages.CombineCommutes | Web/psmWeb/psm/util.py:12-24 | combining two histories in either order gives the same list |
| Snapshot.SortByName | AgentClient/AgentClient/Helper.cpp:72-72 | ascending names, and the same processes |
| Snapshot.LessExactly | AgentClient/AgentClient/Informations.h:34-36 | names are ordered byte by byte: a name is less if it is the beginning of the other, or has the smaller byte where they first differ |
| Snapshot.SendCurrentProcessList | AgentClient/AgentClient/AgentClientSocket.cpp:456-484 | of any list, the groups are its stretches of equal adjacent names, in order, without the nameless ones in front; of a sorted list, one group for each non-empty name with all its IDs |
| Snapshot.SaveCurrentProcessList | AgentServer/AgentServer/RedisManager.cpp:364-386 | one field for each name, the last group of a name counting |
| Snapshot.GetCurrentProcessList | Web/psmWeb/psm/redisJob.py:186-203 | for each name the pieces of its string without the last one |
| Snapshot.SplitInvertsJoin | Web/psmWeb/psm/redisJob.py:196-197 | splitting the joined IDs gives their texts and one empty piece |
| Snapshot.KnownSnapshot | AgentServer/AgentServer/RedisManager.cpp:370-377 | two IDs, byte for byte, joined and taken apart |
| Snapshot.SameIDs | AgentClient/AgentClient/Helper.cpp:72-72 | the IDs under a name do not depend on how the sort leaves equal names |
| Snapshot.RoundTrip | Web/psmWeb/psm/redisJob.py:186-203 | whatever the process list, the page reads, for every non-empty name and no other, exactly the multiset of the IDs of its processes |

## Left out

- RedisParsers.RedisParser.ParseChunk: the body of the byte loop is divided by lexical state into methods of their own, so the early returns of the source are their results.
- RedisClients.SyncClient.DoSyncCommand: a failing `read_some` throws in the source; here the input just ends.
- RedisClients.AsyncClient.AsyncRead: the client's error handler records the error and returns; the default one throws. Reply handlers are identities; what they do, and commands they issue from inside, are not modelled.
- RedisClients.AsyncClient.DoProcessMessage: the Connected branch only; the Subscribed mode and its handler maps are left out.
- RedisClients.MakeCommand: argument lists and reads are of any length; the 4096-byte read buffers are not modelled. `size_t` and memory are unbounded, `long` is 32 bits wide.
- AgentServers.AgentServer.AgentPacketHandling: snapshots and samples are handled in `Snapshot` and `TimeSeries` and are not messages of the session; a stop of the recording is never sent. Sockets are entries of a table, keyed by their place in the socket pool, not heap objects, and their history (stage, lists taken over, stray names) stands beside their fields. Packets still queued at a removal are handled in `Disconnect` only. Every Redis command succeeds, so the error returns of `RedisManager` are left out.
- Session.OtherRequestsKeepInv: of the packets that do not change the session, CurrentProcessListSend, ProcessInfoSend and MachineInfoSend are not among the messages.
- Session.AgentStepOk: StopRecord and counter commands are not among the messages.
- AgentServers.AgentServer.InitAgent: the read and the write of a record are one step here and in `Session`, and two in `Disconnect`. Records hold the number and the two flags, not address, RAM size and dates.
- AgentServers.AgentServer.ClientPacketHandling: AddProcess and DeleteProcess are set insertion and removal; the contents of counter lists, `agentClientApp->agentID`, StopRecord (which the agent parses as another message type) and the success flag of RecordResponse (a recording that is already started is refused, and the laws of `Delivery` say that none ever is) are left out. A refused agent's own disconnect is the event that drops the connection.
- AgentServers.AgentServer.DeleteAgent: DisconnProcess is five separate steps; `Session` lets them happen at any time, `Disconnect` in the order of the source.
- AgentServers.AgentServer.ProcessCommandRequest: counter commands and the web side's own heartbeat, which has the shape of the agents', are left out.
- Disconnects.MovesKeepOrder: of the packets of a removed socket, a list request is taken without its default fill and its answer, which nobody receives; a request for token -1, the broadcast address, is taken without effect.
- Session.ReplicaConvergence: an agent process connects once with empty lists; the source's agent never clears its lists, so a reconnecting process is not covered.
- Session.HandshakeLockstep: packet dispatch is one handler at a time and reliable; that signals coalesce is modelled in `LogicHandle` only.
- Framing.FrameReceiver.RecvProcess: the `socket_ == NULL` branch and the reset for `position == 0`, which no completion reaches, are left out. Frames are byte strings; packet allocation and owner tags are left out. Reads after one that would leave the buffer (a frame announced longer than 8188 bytes) are not described.
- LogicHandles.LogicHandle.ProcessOne: the wait is a precondition; fairness of the scheduler, wait errors and the end of the loop are left out.
- TimeSeries.SaveLogs: counter names and the text form of a sample are left out; values are exact reals.
- TimeSeries.GetCounterValue: entries are already parsed; the connection argument is left out.
- Averages.GetRecentValue: the rounding to two places is left out; the clock is the parameter curTime.
- Averages.SortedItems: the library sort is written as repeated minimum.
- Snapshot.SortByName: the library sort is written as insertion; process names arrive without their extension.
- Snapshot.SaveCurrentProcessList: the MULTI/EXEC transaction is one step and always succeeds.
- Generated protobuf code, I/O completion ports, threads, locks, Winsock, Boost.Asio and JSON: completions are atomic steps over reliable channels.
- `Query`, `MemPooler`, the Django views and the charts: no state or arithmetic of the modelled parts.
- The acknowledgement of heartbeats by the web side's Python client: it skips zero-length frames and is not modelled.
