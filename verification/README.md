# Unix-IPC: a verified model of its event loops and its echo FIFO protocol

The repository holds demonstrations of inter-process communication. Two parts of it keep state over
a whole run, and those are modelled here in Dafny and proved correct, or shown to be incorrect with
the exact condition.

**The readiness loops.** The `select` echo server (`SelectServer`), the `poll` echo server
(`PollServer`), the `TcpMultiplexAcceptor` class (`MultiplexAcceptor`) and the `TcpReceiver` on top
of it (`TcpReceiver`). The kernel is a nondeterministic environment: which descriptors are ready,
what `read`, `write` and `accept` return, and a descriptor table (`Posix`) that hands out the lowest
unused number (POSIX.1-2017 System Interfaces, section 2.14) and remembers, by serial number, what
has been closed. Both servers erase clients from the vector they are indexing, so the successor of a
departed client is passed over; `ReadinessScan` gives that scan a recursive form, and `ServerRuns`
strings scans together into the run that a sequence of kernel offers determines. `ServersAgree`
compares the two servers' runs.

**The echo FIFO protocol.** The byte-level `Package` codec (`PackageCodec`), the alignment of
1024-byte frames in a byte FIFO (`Fifo`), the server as sequential code (`FifoServer`), the protocol
as an interleaving of system calls for any number of clients (`EchoProtocol`) and the simulation of
its runs by the sequential server (`FifoServerRuns`). Of every run: termination (`EchoTermination`),
safety (`EchoSafety`), the frames that pass (`EchoTraffic`), what clients read (`EchoAnswers`) and
who is never served (`EchoStranded`); `EchoSteps` says what each system call does. Then runs of the
documented read (`EchoDocumented`), the complete story of one client (`EchoSingleClient`), and when the
echo is the client's own (`EchoManyClients`).

`dafny verify dfyconfig.toml` checks the whole project.

## Where the code falls short

These are proved as they are, each with the condition under which the code does what it is for.

- After the last client of the `select` server has left, `updateMaxfd` dereferences `max_element`
  of an empty vector, which is undefined in C++. The model takes the value found there from the
  environment; an ordinary vector still has the departed client's number there, which is above the
  listener. `ServerRuns.AcceptedIffListenerKept` and `SelectServer.Server.Serve` say exactly when the listener
  is still heard, `ServerRuns.LostForGood` that it is lost for the rest of the run otherwise, and
  `SelectServer.OneClientLosesListener` is such a run on every host.
- `ReadFrom` keeps the result of `read` in a `size_t`, so a -1 from a non-blocking FIFO counts as
  data, against its comment. `EchoProtocol` has both reads: `EagerRead` is the early one the code makes
  when the FIFO is empty while the server has it open for writing (with no writer `read` gives 0, which
  is tried again). `EchoSafety`, `EchoTermination`, `EchoTraffic`, `EchoAnswers`, `EchoStranded` and
  `FifoServerRuns` are about the code as it stands. There `EchoSafety.FailureIffEagerRead` is the exact
  condition of a failed handshake, `EchoAnswers.AnswerIffWaited` that of an empty answer, and
  `EchoSingleClient.EagerReadBreaksHandshake` and `EchoManyClients.EarlyReadLosesEcho` are runs. A client
  that has read too early may be gone when its frame is written, and the server dies of that
  (`EchoManyClients.LateEchoCrashesServer`; `EchoSteps.DeliveredIff` is the exact condition).
  `EchoDocumented`, `EchoSingleClient.SingleClientRun` and `EchoManyClients.OwnEchoIffAlone` are about
  the documented read.
- The wire does not carry `fd_`, so a session reads whatever frame comes next. With the documented
  read the echo always reaches its owner if and only if there is at most one client
  (`EchoManyClients.OwnEchoIffAlone`). With the code's own read no client can count on its echo
  (`EchoManyClients.OwnEchoIffNobody`); a single client gets it in exactly the runs in which none of its
  reads came too early (`EchoManyClients.OwnEchoIffWaited`).
- Move assignment of the acceptor leaves session 0 bound to the moved-from object
  (`MultiplexAcceptor.Acceptor.MoveAssign`, `MultiplexAcceptor.AcceptAfterAssign`), and the
  descriptors the target polled before are never closed (`MultiplexAcceptor.AssignLeaks`). The move
  constructor is right.
- `Socket::close` skips descriptor 0, so a listener with that number is never closed
  (`MultiplexAcceptor.Lifetime`).

## Model

| member | source | states |
|---|---|---|
| ServerRuns.BoundedWaiting | socket/servers/multiplex_server/main.cpp:101-123 | whoever arrives or departs, a client at index i that is ready while it is listed is served within i + 1 iterations |
| ServerRuns.BoundIsTight | socket/servers/multiplex_server/main.cpp:117-122 | for every list and every index there is a run in which the ready client is served only in iteration i + 1, so the bound cannot be improved |
| ServerRuns.NoClientStarves | socket/servers/multiplex_server_use_poll/main.cpp:94-119 | the same bound in terms of what the kernel offers, for the run that either server makes of the offers; the poll server's client at vector index k is at index k - 1 here, the listener being entry 0 |
| ServerRuns.RunIsDetermined | socket/servers/multiplex_server/main.cpp:101-123 | the run that a list and the offers determine: in each iteration select and accept have succeeded, and the list with the newcomer is scanned for the reported clients; the run stops short of the offers only at a "stop", when the process has left, or where select, poll or accept failed |
| ServerRuns.AcceptedIffListenerKept | socket/servers/multiplex_server/main.cpp:106-115 | a connection that waits in an iteration is accepted in it if and only if no earlier iteration emptied the list with a value below the listener past its end; it gets the lowest unused number |
| ServerRuns.LostForGood | socket/servers/multiplex_server/main.cpp:24-26 | after such an iteration every later one finds nothing ready and changes nothing |
| ServerRuns.SameRunIff | socket/servers/multiplex_server/main.cpp:101-123 | fed the same offers, a server that can lose its listener logs what one that cannot logs if and only if no connection waits after the loss |
| ReadinessScan.PassedOverIffPredecessorLeft | socket/servers/multiplex_server/main.cpp:47-57 | in a completed scan a ready client is passed over if and only if the client just before it departed in that scan |
| ReadinessScan.ServedInListOrder | socket/servers/multiplex_server/main.cpp:117-122 | clients are served in list order, none of them twice |
| ReadinessScan.SurvivorsKeepOrder | socket/servers/multiplex_server/main.cpp:117-122 | the clients left are the ones that did not depart, in their old order |
| ReadinessScan.EventsComeFromReadyClients | socket/servers/multiplex_server/main.cpp:118-121 | only listed clients of the ready snapshot are served, and each event answers what that client has sent |
| ReadinessScan.HandleMeans | socket/servers/multiplex_server/main.cpp:42-68 | the text up to the first NUL is sent back byte for byte, "stop\r\n" asks the server to stop instead, an end of stream is a departure; a read error, or a failing write of other text, ends the process, and nothing else does |
| ReadinessScan.LeavesIffFatal | socket/servers/multiplex_server/main.cpp:117-122 | the process leaves in a scan if and only if a ready client that is not passed over has such an error, and all that was served stands before it |
| ReadinessScan.ServedOrNearer | socket/servers/multiplex_server/main.cpp:117-122 | a ready client is served or stands strictly nearer the head: the measure behind bounded waiting |
| ReadinessScan.NewcomerUntouched | socket/servers/multiplex_server/main.cpp:106-122 | a client accepted in this iteration ends last and changes nothing else in it |
| SelectServer.Server.constructor | socket/servers/multiplex_server/main.cpp:75-99 | the server starts registered and with the lowest unused descriptor as listener |
| SelectServer.Server.UpdateMaxfd | socket/servers/multiplex_server/main.cpp:24-26 | maxfd becomes a client that no client exceeds, or whatever is found past the end of an empty list |
| SelectServer.Server.ClientsAboveListener | socket/servers/multiplex_server/main.cpp:24-26 | lowest-number allocation puts every client above the listener, so the largest client is the maximum of the registered set although the listener is left out of the computation |
| SelectServer.OneClientLosesListener | socket/servers/multiplex_server/main.cpp:47-57 | on every host one client that comes and goes loses the listener if the value past the end is below it: later iterations serve and accept nobody, whatever becomes ready |
| SelectServer.ListenerLost | socket/servers/multiplex_server/main.cpp:101-123 | the server itself in that run: listener registered, not watched, no further arrival |
| SelectServer.Server.Select | socket/servers/multiplex_server/main.cpp:102-104 | while there are clients no registered ready descriptor is missed |
| SelectServer.Server.HandleRequest | socket/servers/multiplex_server/main.cpp:42-68 | the reply decides what is echoed, who leaves, when the server stops or exits; registration and ownership are kept |
| SelectServer.Server.ServeReady | socket/servers/multiplex_server/main.cpp:117-122 | the loop that erases while it indexes computes exactly the recursive scan |
| SelectServer.Server.Round | socket/servers/multiplex_server/main.cpp:101-123 | one iteration, with the registration invariant allset = {listenfd} + clients and maxfd its maximum |
| SelectServer.Server.Serve | socket/servers/multiplex_server/main.cpp:101-123 | the main loop plays exactly the run its inputs determine, says when it ends and why, and gives each accepted connection a serial, which is held or has been closed once (`Posix.HeldOrClosedOnce`); everything registered stays watched if and only if no iteration loses the listener |
| SelectServer.Server.CloseConnections | socket/servers/multiplex_server/main.cpp:37-40 | every client is closed, in order, and the list is empty |
| SelectServer.Server.Shutdown | socket/servers/multiplex_server/main.cpp:125-126 | afterwards the process holds only what it inherited and no close has failed |
| SelectServer.RunServer | socket/servers/multiplex_server/main.cpp:70-129 | the whole run its inputs determine; if a "stop" ends it, every connection accepted and the listener (1 + arrivals serials) have been closed exactly once, despite the reuse of numbers, and otherwise listener and clients are still held |
| PollServer.Server.HandleRequest | socket/servers/multiplex_server_use_poll/main.cpp:31-58 | the same on pollfd records |
| PollServer.Server.FastPathLosesNothing | socket/servers/multiplex_server_use_poll/main.cpp:98-113 | when nready < 2 and the listener is ready, the skipped scan would have served nobody |
| PollServer.Server.Round | socket/servers/multiplex_server_use_poll/main.cpp:94-121 | one iteration, fast path included, is the scan over the clients reported exactly POLLRDNORM |
| PollServer.Server.Serve | socket/servers/multiplex_server_use_poll/main.cpp:94-121 | the main loop plays exactly the run its inputs determine, says when it ends and why, and gives each accepted connection a serial |
| PollServer.Server.Shutdown | socket/servers/multiplex_server_use_poll/main.cpp:23-29 | listener and clients are closed, none of the closes failing |
| PollServer.RunServer | socket/servers/multiplex_server_use_poll/main.cpp:60-127 | the whole run its inputs determine; if a "stop" ends it, every connection accepted and the listener have been closed exactly once, and otherwise they are held as listed |
| ServersAgree.SameRound | socket/servers/multiplex_server_use_poll/main.cpp:94-119 | from corresponding clients and the same input both servers make the same turn of it, with the same events, and stay corresponding |
| ServersAgree.SameRun | socket/servers/multiplex_server/main.cpp:101-123 | each server plays the run of its inputs to the client list, the flags and the serials that this run gives; their logs are equal, and they end corresponding, if and only if no connection waits after the select server has lost its listener |
| ReadinessScan.SameReadySets | socket/servers/multiplex_server/main.cpp:117-122 | a scan depends on the ready set only through the listed clients |
| MultiplexAcceptor.CountCoversReady | socket/external/engine/net_api/acceptor/multiplex_acceptor/tcp_multiplex_acceptor.cpp:89-96 | the count poll returns is the number of entries to dispatch plus the number of entries with other events |
| MultiplexAcceptor.Acceptor.constructor | socket/external/engine/net_api/acceptor/multiplex_acceptor/tcp_multiplex_acceptor.cpp:44-53 | the parallel vectors start with the listener, bound to this object |
| MultiplexAcceptor.Acceptor.Move | socket/external/engine/net_api/acceptor/multiplex_acceptor/tcp_multiplex_acceptor.cpp:55-62 | the new object has the vectors and its own listener handler in session 0, the old one is empty |
| MultiplexAcceptor.Acceptor.MoveAssign | socket/external/engine/net_api/acceptor/multiplex_acceptor/tcp_multiplex_acceptor.cpp:64-71 | move assignment leaves session 0 with the handler of the source, and what the target polled before open but in neither object |
| MultiplexAcceptor.AcceptAfterAssign | socket/external/engine/net_api/acceptor/multiplex_acceptor/tcp_multiplex_acceptor.cpp:64-71 | the next connection accepted after it lands in the moved-from object |
| MultiplexAcceptor.AssignLeaks | socket/external/engine/net_api/acceptor/multiplex_acceptor/tcp_multiplex_acceptor.cpp:64-80 | once both objects are destroyed, all the descriptors the target polled before the assignment are still open |
| MultiplexAcceptor.Acceptor.Call | socket/external/engine/net_api/acceptor/multiplex_acceptor/tcp_multiplex_acceptor.cpp:28-35 | a handler extends the vectors it refers to, or its inbox, and nothing else |
| MultiplexAcceptor.Acceptor.HandleEvent | socket/external/engine/net_api/acceptor/multiplex_acceptor/tcp_multiplex_acceptor.cpp:104-112 | an entry is dispatched and paid for only if its revents is exactly POLLRDNORM; the parallel structure stays |
| MultiplexAcceptor.Acceptor.HandleClientsSocket | socket/external/engine/net_api/acceptor/multiplex_acceptor/tcp_multiplex_acceptor.cpp:98-102 | the loop dispatches the first readyCount ready entries in order, never one accepted on the way |
| MultiplexAcceptor.Acceptor.PollRound | socket/external/engine/net_api/acceptor/multiplex_acceptor/tcp_multiplex_acceptor.cpp:82-102 | the early exit loses nothing: every session reported readable is dispatched once, in order, and never one accepted in this round; the count left over is the number of entries reported otherwise |
| MultiplexAcceptor.Acceptor.Destroy | socket/external/engine/net_api/acceptor/multiplex_acceptor/tcp_multiplex_acceptor.cpp:73-80 | the destructor closes the positive descriptors of its sessions, each once |
| MultiplexAcceptor.Acceptor.DestroyReleases | socket/external/engine/net_api/socket/socket.cpp:126-130 | of an acceptor's descriptors only number 0 can stay open, and no other descriptor of the process is touched |
| MultiplexAcceptor.Lifetime | socket/external/engine/net_api/acceptor/multiplex_acceptor/tcp_multiplex_acceptor.cpp:55-80 | over any polls and move constructions, and any order of destruction: one descriptor for the listener and one for each poll that reported a connection, all closed exactly once; only a listener with number 0 stays open |
| TcpReceiver.Receiver.Receive | socket/external/engine/net_api/receiver/tcp_receiver.h:44-52 | only appends; each round polls what the one before left, newcomers included; ends with at least the expected number of messages and at most one round of the sessions last polled more than needed |
| TcpReceiver.Receiver.ReceiveOnce | socket/external/engine/net_api/receiver/tcp_receiver.h:34-39 | one round appends each ready client session's data, at most one message a session |
| TcpReceiver.MailOfSession | socket/external/engine/net_api/receiver/tcp_receiver.h:34-39 | a round delivers a session's data once if its entry was ready, and not at all otherwise |
| TcpReceiver.SessionOrder | socket/external/engine/net_api/receiver/tcp_receiver.h:44-52 | the messages of a session are its reads in the order they were made |
| PackageCodec.RoundTrip | fifo/echo_fifo_server_client/client/client.cpp:127-158 | decoding an encoded package gives its type and its data cut at the first NUL, whatever the buffer held before |
| PackageCodec.LosslessIff | fifo/echo_fifo_server_client/client/client.cpp:141-158 | the data survives if and only if it holds no NUL |
| PackageCodec.IntegerRoundTrip | fifo/echo_fifo_server_client/client/client.cpp:130-135 | an integer that fits its field is read back from its bytes |
| PackageCodec.ServerReadsClientTypes | fifo/echo_fifo_server_client/server/server.cpp:54-71 | what the client writes as one of its types the server reads as the corresponding one |
| PackageCodec.WireFormat | fifo/echo_fifo_server_client/client/client.cpp:127-139 | every byte of an encoded frame: type and length with their lowest byte first, the data, then what the buffer held before |
| PackageCodec.TypeByte | fifo/echo_fifo_server_client/client/client.cpp:127-139 | the first byte is the position of the type among the enumerators |
| PackageCodec.DecodeMeans | fifo/echo_fifo_server_client/server/server.cpp:54-71 | what is read out of any frame, by its bytes |
| PackageCodec.Serialize | fifo/echo_fifo_server_client/server/server.cpp:40-52 | the copies at a moving offset produce the encoded frame and leave the rest of the buffer |
| PackageCodec.Deserialize | fifo/echo_fifo_server_client/server/server.cpp:54-71 | the copies at a moving offset compute the decoding |
| Fifo.FramesStayAligned | fifo/echo_fifo_server_client/server/server.cpp:138-168 | whatever the interleaving of writers and readers, the FIFO holds whole frames, and what was read followed by what is queued is what was written |
| Fifo.ReadTakesFirst | fifo/echo_fifo_server_client/server/server.cpp:138-152 | a read of a FIFO that is not empty returns the frame at its head, and takes just that |
| Fifo.EveryReadReturns | fifo/echo_fifo_server_client/server/server.cpp:138-152 | as many frames are returned as reads found bytes |
| Fifo.BytesAreFrames | fifo/echo_fifo_server_client/server/server.cpp:138-168 | the queue of bytes is a queue of frames, in every run of writes and reads |
| EchoTermination.RunsAreFinite | fifo/echo_fifo_server_client/server/server.cpp:238-267 | with n clients no interleaving has more than 60 n + 3 steps, a waiting read being one step however often it is tried |
| EchoTermination.StepDecreases | fifo/echo_fifo_server_client/client/client.cpp:186-226 | every step of anybody lowers one measure |
| EchoSafety.StepKeepsInv | fifo/echo_fifo_server_client/server/server.cpp:184-236 | the protocol invariant survives every step of every process, early reads included |
| EchoSafety.OpenFindsReader | fifo/echo_fifo_server_client/client/client.cpp:186-197 | a queued connection request means its sender still reads its private FIFO, so the server's non-blocking open never fails |
| EchoSafety.PrivateFifoContents | fifo/echo_fifo_server_client/server/server.cpp:191-201 | the first frame ever put on a private FIFO is the greeting, every later one is a copy of a frame clients put on the public FIFO |
| EchoSafety.AdmitsNewcomers | fifo/echo_fifo_server_client/server/server.cpp:184-210 | Accept takes a client frame for a newcomer exactly when it is a connection request, and finds its sender |
| EchoSafety.FailureIffEagerRead | fifo/echo_fifo_server_client/client/client.cpp:197-204 | a client ends in "Connection is failure" if and only if a read for its status found the FIFO empty |
| EchoDocumented.NobodyFails | fifo/echo_fifo_server_client/client/client.cpp:57-76 | under the documented read no client fails, and greeting and first echo are always delivered |
| EchoTraffic.PublicFifoOrder | fifo/echo_fifo_server_client/server/server.cpp:184-236 | in every run what the server has read from the public FIFO, followed by what is queued there, is what the clients have written, in the order of writing |
| EchoTraffic.PrivateFifoOrder | fifo/echo_fifo_server_client/server/server.cpp:160-168 | in every run what was ever put into a private FIFO is what the server has written to descriptors standing for it, in that order |
| EchoSteps.DeliveredIff | fifo/echo_fifo_server_client/server/server.cpp:160-168 | in every run a write to the private FIFO of c is delivered if and only if c has made its second system call, not its tenth, has not left at its fifth, and there is room; otherwise it ends the server |
| EchoSteps.WriteElsewhere | fifo/echo_fifo_server_client/server/server.cpp:202-207 | a write to a descriptor that is no private FIFO, as after a stray message, succeeds only on an inherited one |
| EchoSteps.ClientMovesIff | fifo/echo_fifo_server_client/client/client.cpp:186-226 | in every run, when a client can make its next system call, what it writes, and that it dies of a write or open exactly after the server has ended |
| EchoSteps.EarlyReadIff | fifo/echo_fifo_server_client/client/client.cpp:57-76 | in every run, when a client's read can come too early, and what it makes of it |
| EchoSteps.OpensIff | fifo/echo_fifo_server_client/server/server.cpp:248-250 | the server's first open waits until a client has opened the public FIFO |
| EchoSteps.AcceptStep | fifo/echo_fifo_server_client/server/server.cpp:184-210 | Accept in the protocol: a request, a message that finds a 0 in the table, and all other frames |
| EchoAnswers.AnswerIffWaited | fifo/echo_fifo_server_client/client/client.cpp:57-76 | in every run of the code as it stands, a client with an answer has read it from its FIFO if and only if it made no early read; otherwise the answer is empty |
| EchoAnswers.AnswersComeFromClients | fifo/echo_fifo_server_client/client/client.cpp:211-216 | in every run an answer that was read is the data of a frame some client wrote to the public FIFO in that run and the server took from there |
| EchoSingleClient.SingleClientRun | fifo/echo_fifo_server_client/client/client.cpp:178-229 | with one client every interleaving keeps at most one frame in flight, never deadlocks, has at most 63 steps, and ends with the client holding its own message |
| EchoSingleClient.SoloProgress | fifo/echo_fifo_server_client/server/server.cpp:252-264 | a state in which nobody can move is the one where both have ended, the server through the close frame |
| EchoSingleClient.EagerReadBreaksHandshake | fifo/echo_fifo_server_client/client/client.cpp:63-76 | for every configuration the code's own read has a run in which the only client fails and the server dies writing to it |
| EchoStranded.StrandedForGood | fifo/echo_fifo_server_client/server/server.cpp:223-236 | a client whose request has been used up by somebody else's session is not served in any continuation of the run |
| EchoManyClients.WrongEcho | fifo/echo_fifo_server_client/server/server.cpp:223-236 | with two or more clients there is a run of waiting reads in which client 0 gets client 1's connection request for an answer; in no continuation is client 1 served, and client 0's own message sends the server into a session on descriptor 0 |
| EchoManyClients.EarlyReadLosesEcho | fifo/echo_fifo_server_client/client/client.cpp:63-76 | with any number of clients there is a run in which the code's own read gives client 0 an empty answer |
| EchoManyClients.LateEchoCrashesServer | fifo/echo_fifo_server_client/server/server.cpp:160-168 | in a continuation of that run client 0 ends before its echo is written, and the server dies of writing it |
| EchoManyClients.OwnEchoIffAlone | fifo/echo_fifo_server_client/server/server.cpp:202-207 | in all runs of the documented read every answer is the client's own message if and only if there is at most one client |
| EchoManyClients.OwnEchoIffNobody | fifo/echo_fifo_server_client/client/client.cpp:63-76 | in all runs of the code's own read it is so only without clients |
| EchoManyClients.OwnEchoIffWaited | fifo/echo_fifo_server_client/client/client.cpp:208-216 | in every run of the code's own read with one client, its answer is its own message if and only if it made no early read |
| FifoServer.Server.ReadFrom | fifo/echo_fifo_server_client/server/server.cpp:138-152 | the loop stops at the first result that is not 0 and leaves its frame in the buffer; -1 stops it too and leaves the buffer as it was |
| FifoServer.Server.Accept | fifo/echo_fifo_server_client/server/server.cpp:184-210 | the code over real buffers, case by case: a request opens, lists and greets a session, a message gives 0 if the table holds one, anything else gives -1 |
| FifoServer.Server.SessionClose | fifo/echo_fifo_server_client/server/server.cpp:212-221 | a listed session loses one occurrence in the table and its descriptor is closed, once; an unknown one changes nothing |
| FifoServer.Server.CreateNewSession | fifo/echo_fifo_server_client/server/server.cpp:223-236 | a close frame ends the session, any other frame is written back byte for byte |
| FifoServer.Server.Serve | fifo/echo_fifo_server_client/server/server.cpp:252-261 | the main loop plays its inputs up to the first turn in which Accept gives no session, something is thrown or a read waits, and says how that turn ended; the session table is conserved |
| FifoServer.FinalAfterLast | fifo/echo_fifo_server_client/server/server.cpp:252-258 | nothing that would come after that turn has any effect |
| FifoServer.AcceptMeans | fifo/echo_fifo_server_client/server/server.cpp:184-210 | the decision of Accept as the books show it |
| FifoServer.SessionMeans | fifo/echo_fifo_server_client/server/server.cpp:212-236 | what a session does to the books |
| FifoServer.TableConserved | fifo/echo_fifo_server_client/server/server.cpp:184-232 | the table is its initial contents plus the sessions opened minus one occurrence per session closed, and SessionClose never meets an unknown session |
| FifoServerRuns.StepIsSimulated | fifo/echo_fifo_server_client/server/server.cpp:184-236 | each system call of the protocol, by anybody, takes the sequential server's turn as far as the protocol's server has come |
| FifoServerRuns.RunsAreServed | fifo/echo_fifo_server_client/server/server.cpp:252-261 | for every run of the protocol there are inputs delivering exactly the frames its server has read, on which the sequential server ends with the same table and descriptors and in the same way, its writes being the contents of the private FIFOs; so the table is conserved in every reachable state |

## Assumptions

- A `pollfd` that has just been pushed has `revents` 0 (the poll server leaves it uninitialised).
- `close` succeeds on an open descriptor and fails on any other number.
- Text from a buffer without a NUL ends with the buffer; a frame whose length field reaches past the
  buffer (undefined in C++) is refused; no process of the model writes one.
- Descriptors stay below `FD_SETSIZE`; a pipe holds at least one frame, where stated two; a write of
  1024 bytes to a pipe is atomic (POSIX `write()`, PIPE_BUF at least 1024).
- FIFO names are distinct (`mkfifo` fails otherwise) and NUL-free, and names and messages fit into a
  frame, as `serialize` requires. The server has made the public FIFO before the clients start.
- Integers on the wire are little-endian.
- Except in move assignment, the acceptor under consideration is the only one of its process that
  has descriptors; objects it was moved from may still exist.
- A client's actions between two system calls are not visible to anybody, so its `main` is modelled by
  its sequence of system calls; what another process does in between is any sequence of steps.

## Left out

- System calls themselves, `perror`, exception texts, console output and `sleep`: replaced by the environment; error exits end the run.
- The acceptor's sockets and sessions are values inside the vectors that own them: element addresses, vector reallocation and dangling references are not captured.
- Polling after move assignment, `TcpReceiver` moves and `setSenderCount`: the code does not keep its invariants there.
- Failing `poll`, `accept` and `close` calls in the acceptor and receiver: they throw, which ends the run.
- socket/clients, the UDP programs, `simple_tcp_server` and fifo/simple_fifo_server_client: straight-line I/O.
- `SocketAddressIpv4`, `native_socket_api`, `io_operations_api`, the buffer classes, `Result` and `ScopeGuard`: wrappers that would only add easy members.
- `TcpMultiThreadAcceptor`: its detached threads share no modelled state; `TcpChannel`: disabled in the build.
- Writes that the kernel accepts only in part, and signals other than the one for a pipe without a reader.
