# Verification of the network checker and its companions

This project models and proves the state machines and protocols of a collection of network programs:

- **The refactored network checker** (`04-30_nwchecker_refactor`): the intrusive ring list (`RingList`), the worker lists
  with deferred free on top of it (`WorkerLooper`), the epoll event loop under the TCP handlers (`TcpStack`), reassembly of
  length-prefixed packages (`Framing`), what they do to a connection (`Receiving`) and the connection object itself
  (`Connection`), the quality-of-service protocol (`Qos`, its runs in `QosRuns`, client,
  links and server together in `QosSession`), the paced sender (`Pacing`, `Connection`) and the UDP peers (`PeerTable`).
- **The signal-driven UDP server** of chapter 04-24 (`SigioServer`) and **the multi-process server** of chapter 04-23
  (`ProcessPool`), as machines whose steps interleave.
- **Three Java programs**: the event queue of the I/O thread (`IOThreadQueue`), the resumed partial writes of the
  non-blocking server (`NonblockClient`) and the datagram codec (`MessageCodec`).

Objects that the programs update in place are classes, loops are loops with invariants, and each method is proved against a
function of the old state; the properties are lemmas about those functions and invariants over all runs. Concurrent programs
are step machines: a run is any list of steps, a step that is not enabled changes nothing. Sockets, the kernel, the clock,
the peers and user callbacks are inputs. `Words` and `Sequences` hold shared vocabulary.

Where the code does not do what it is meant to for every input, the exact condition is proved; where it does not name the
failing inputs itself, a run in which it happens stands beside it:

- a package stamped 0 is never acknowledged (`QosSession.EveryAckFindsItsOwnPackage`,
  `QosSession.StampZeroIsNeverAcknowledged`);
- the receive buffer stays full, so that the next recv asks for zero bytes, exactly when it was full and its first
  package is larger than 4096 bytes without its length wrapping (`Receiving.BufferStaysFullExactlyWhen`,
  `Receiving.OversizedPackageFillsTheBuffer`);
- the parse leaves its buffer exactly behind a header of the stream whose length wraps when 16 is added to it, unless the
  replies end the run before (`Receiving.ServerRun`, `Receiving.ClientRun`, `Receiving.WrappingHeaderLeadsAstray`);
- a server whose reply meets EAGAIN drops that reply, and spins in the receive loop exactly when another package of the
  stream follows (`Receiving.ServerRun`, `Receiving.BlockedReplySpins`);
- a bandwidth of 1 to 7 bits per second sends nothing (`Pacing.SliceIsLeastSufficient`);
- a dispatch of the workers comes back to the list it started on exactly when no callback that runs cancels the
  worker right behind it; otherwise it frees workers early and ends up on the header of the wrong list
  (`WorkerLooper.Looper.Dispatch`, `WorkerLooper.CancelledNextStrays`);
- a TCP handler can send exactly as long as it has never met EAGAIN: writability is only asked for while connecting,
  so nothing revives a blocked sender (`TcpStack.Stack.Run`, `TcpStack.BlockedSenderStaysSilent`);
- the signal-driven server loses datagrams that were unread when O_ASYNC was set
  (`SigioServer.StuckExactlyWhenUnreadAtStart`);
- a multi-process server whose master leaves its loop shuts down exactly when no exit command to a running worker is
  lost (`ProcessPool.ShutdownCompletesExactlyWhen`, `ProcessPool.LostExitRun`);
- no partial writes can make the Java send buffer overflow exactly when no response is longer than the one before it,
  because the buffer's limit is rewound but not cleared (`NonblockClient.NeverOverflowsExactlyWhen`,
  `NonblockClient.LongerResponseOverflows`); this is latent: the program's own responses are dates of one fixed format;
- an empty message body comes back as length -1 (`MessageCodec.BodyComesBackExactlyWhen`).

## Model

| member | source | states |
|---|---|---|
| QosSession.EveryAckFindsItsOwnPackage | 04-30_nwchecker_refactor/nwc_qos_protocol.c:112-145 | In every run of client, FIFO links and server over a non-decreasing 32-bit clock, sends and replies blocking as they may, the next acknowledgement leaves the protocol unchanged if its package was counted lost or stamped 0. Otherwise it removes exactly that package, the oldest with a nonzero stamp; the sample x is the time since the stamp less the time the server held the package, never negative; rtt becomes 7/8 rtt + x/8, jitter 7/8 jitter + (x - new rtt)/8, and nothing else changes |
| QosSession.EveryRunKeeps | 04-30_nwchecker_refactor/nwc_qos_protocol.c:7-19 | Invariant of every run: the sent queue is the answered packages stamped 0, then the unlost part of what is in flight or was left unanswered, then a package whose send blocked; lost ones are strictly older than queued ones; recv_delay never exceeds the elapsed time; rtt >= 0 |
| QosSession.QuietSessionIsSettled | 04-30_nwchecker_refactor/nwc_connection.c:157-196 | With nothing in flight and no blocked send, every created package is acknowledged, counted lost, or was stamped 0 |
| QosSession.StampZeroIsNeverAcknowledged | 04-30_nwchecker_refactor/nwc_qos_protocol.c:112-116 | The run of one package sent at clock 0: its acknowledgement changes nothing |
| QosSession.OneRoundTrip | 04-30_nwchecker_refactor/nwc_qos_protocol.c:112-145 | One package sent at t, received at a, answered at b and acknowledged at c: rtt is an eighth of (c - t) - (b - a), jitter an eighth of 7/8 of it, one package of 1316 bytes sent, none lost or queued |
| QosSession.EverySessionCanSettle | 04-30_nwchecker_refactor/nwc_connection.c:75-156 | From every reachable state in which nothing blocked, receiving, answering and acknowledging alone empty the links, and leave every package acknowledged, counted lost, or stamped 0 |
| QosSession.AckFinds | 04-30_nwchecker_refactor/nwc_qos_protocol.c:117-124 | What the lookup by timestamp returns for the head acknowledgement, in each case |
| QosSession.ExpiryIsPrefix | 04-30_nwchecker_refactor/nwc_qos_protocol.c:32-38 | On a queue ordered by timestamp the loss loop takes exactly a prefix |
| QosSession.StatKeeps | 04-30_nwchecker_refactor/nwc_qos_protocol.c:21-38 | A statistics call keeps the session invariant: whatever it counts lost is strictly older than whatever it leaves |
| QosSession.ReceiveKeeps | 04-30_nwchecker_refactor/nwc_connection.c:139-142 | Processing an acknowledgement keeps the session invariant |
| QosSession.ServerReplyKeeps | 04-30_nwchecker_refactor/nwc_connection.c:118-125 | Answering a package keeps the session invariant; the answer is stamped with the clock and carries the stamp of the package, the time it was held, and length 4 |
| QosSession.ServerReplyBlockedKeeps | 04-30_nwchecker_refactor/nwc_connection.c:132-138 | A reply that meets -EAGAIN is dropped and ends the answering, which keeps the session invariant |
| QosSession.SampleIsElapsedMinusDelay | 04-30_nwchecker_refactor/nwc_qos_protocol.c:132-133 | The sample, computed by wrapping subtraction, is the time since the package was stamped less the time the server held it, and never negative on a shared clock |
| QosRuns.EveryRunConserves | 04-30_nwchecker_refactor/nwc_qos_protocol.c:21-145 | Over any run each created package is in exactly one of acknowledged, counted lost, queued; the interval counters equal creations, bytes and losses since the last reset modulo 2^32 |
| QosRuns.StatKeepsTheYoung | 04-30_nwchecker_refactor/nwc_qos_protocol.c:32-38 | After any statistics call but the first the queue is exactly the entries whose age modulo 2^32 is at most rtt, in order |
| QosRuns.StatResetsExactlyWhen | 04-30_nwchecker_refactor/nwc_qos_protocol.c:40-55 | The counters are reset exactly when 1000 to 2^31 - 1 milliseconds have passed since the last reset; otherwise only the losses grow, by the packages removed, modulo 2^32; the averages never change |
| QosRuns.SmoothingBounds | 04-30_nwchecker_refactor/nwc_qos_protocol.c:132-136 | Samples in [0, S] keep rtt in [0, S] and jitter within 7/8 S |
| QosRuns.SteadySamples | 04-30_nwchecker_refactor/nwc_qos_protocol.c:132-136 | n equal samples x give rtt = x(1 - (7/8)^n) and jitter = x(n/8)(7/8)^n |
| Qos.FirstStamped | 04-30_nwchecker_refactor/nwc_qos_protocol.c:7-19 | The first entry with the stamp, or none |
| Qos.AckMeans | 04-30_nwchecker_refactor/nwc_qos_protocol.c:112-145 | An acknowledgement in full, field by field: ignored for stamp 0 or a stamp that is not queued; otherwise the first entry with the stamp leaves and both averages take the sample, receive time minus stamp modulo 2^32 minus recv_delay |
| Qos.FirstStatOnlyStarts | 04-30_nwchecker_refactor/nwc_qos_protocol.c:26-30 | The first statistics call remembers its time and changes nothing else |
| Qos.QosProtocol.constructor | 04-30_nwchecker_refactor/nwc_qos_protocol.c:60-74 | The initial state |
| Qos.QosProtocol.CreatePackage | 04-30_nwchecker_refactor/nwc_qos_protocol.c:76-97 | The package is appended unstamped and the counters grow, wrapping |
| Qos.QosProtocol.Stamp | 04-30_nwchecker_refactor/nwc_connection.c:172-175 | Stamping the package changes the queued entry, which points to it |
| Qos.QosProtocol.GetPackageEntry | 04-30_nwchecker_refactor/nwc_qos_protocol.c:7-19 | The list scan finds the first entry with the stamp |
| Qos.QosProtocol.ProcessPackage | 04-30_nwchecker_refactor/nwc_qos_protocol.c:112-145 | New state after an acknowledgement; the jitter uses the already updated rtt |
| Qos.QosProtocol.SweepExpired | 04-30_nwchecker_refactor/nwc_qos_protocol.c:32-38 | The safe traversal unlinks exactly the expired entries and counts them |
| Qos.QosProtocol.Stat | 04-30_nwchecker_refactor/nwc_qos_protocol.c:21-58 | New state after a statistics call: first call, loss loop, reset |
| Framing.ParseIsParse | 04-30_nwchecker_refactor/nwc_connection.c:97-153 | What the loop computes cuts the stream into whole packages and a rest too short for another |
| Framing.ParseIsUnique | 04-30_nwchecker_refactor/nwc_connection.c:97-153 | No other cut of the stream has that property |
| Framing.ParseResumes | 04-30_nwchecker_refactor/nwc_connection.c:97-153 | Parsing may stop after any byte and resume from the rest |
| Framing.ChunksDoNotMatter | 04-30_nwchecker_refactor/nwc_connection.c:85-153 | However recv cuts the stream, the packages delivered and the rest are those of parsing it at once |
| Framing.PackagesArrive | 04-30_nwchecker_refactor/nwc_connection.c:85-153 | Whole packages sent back to back arrive as sent |
| Receiving.BufferStaysFullExactlyWhen | 04-30_nwchecker_refactor/nwc_connection.c:85-106 | A call that ends by itself leaves 4096 unparsed bytes, so that the next recv asks for zero, exactly when the buffer was full and its first package needs more than 4096 bytes but its length does not wrap |
| Receiving.OversizedPackageFillsTheBuffer | 04-30_nwchecker_refactor/nwc_connection.c:85-106 | A full buffer whose first package needs 5016 bytes stays full |
| Framing.FittingPackagesKeepRoom | 04-30_nwchecker_refactor/nwc_connection.c:85-106 | If every package of the stream fits 4096 bytes, room is left after any chunks |
| Receiving.HeaderRoundTrip | 04-30_nwchecker_refactor/nwc_qos_protocol.h:8-15 | The four header words read back; they stand in this order, lowest byte first, before the payload |
| Receiving.SentHeadersArrive | 04-30_nwchecker_refactor/nwc_connection.c:85-153 | For any chunks the receiver sees exactly the headers sent, in order |
| Connection.Conn.OnRecv | 04-30_nwchecker_refactor/nwc_connection.c:75-156 | The stream of old rest and new bytes is parsed to its end: the client's protocol processes each package in order, the server answers them up to the first reply that fails; how the call ends is decided by the stream and the sends, and when it ends by itself the front of recv_buff is exactly the rest; a recv of -EAGAIN changes nothing, any other failure closes |
| Connection.Conn.Parse | 04-30_nwchecker_refactor/nwc_connection.c:97-146 | The loop: where the unparsed bytes start, what was handled and how it ended, for any stream the buffer holds |
| Connection.Conn.Compact | 04-30_nwchecker_refactor/nwc_connection.c:148-153 | memmove brings the rest to the front although the regions overlap |
| Connection.Conn.Handle | 04-30_nwchecker_refactor/nwc_connection.c:108-142 | One package. Client: the protocol processes its header with the time behind recv. Server: with can_send set and a reply that is sent, one header more on the wire, with the clock, the first word of the package, the time it was kept modulo 2^32, and 4; -11 clears can_send, another failure ends the call, and without can_send the call spins |
| Receiving.ItemsCompose | 04-30_nwchecker_refactor/nwc_connection.c:97-146 | Packages may be handled in any number of steps: what follows a loop that ended by itself goes on from its state, what follows one that is stuck or failed changes nothing |
| Receiving.ServerItems | 04-30_nwchecker_refactor/nwc_connection.c:109-138 | What a server's loop does package by package amounts to answering the packages before the first reply that fails, with can_send and the end decided by that failure |
| Receiving.ClientItems | 04-30_nwchecker_refactor/nwc_connection.c:139-142 | What a client's loop does amounts to feeding every package to the protocol |
| Connection.ReceiveChunks | 04-30_nwchecker_refactor/nwc_connection.c:75-156 | The calls of a connection that receives a stream in any chunks: its state and the way the run ends are those of the machine, for given clock readings and send results |
| Receiving.RunIsOneCall | 04-30_nwchecker_refactor/nwc_connection.c:75-156 | However the stream is cut, its calls amount to one over all packages of the whole stream, each with the clock readings and the send result of the call that completes it |
| Receiving.ServerRun | 04-30_nwchecker_refactor/nwc_connection.c:109-139 | Over a whole stream only the first reply that fails counts: the packages before it are answered, in order, each with its own stamp and the time it was kept; the run fails exactly when that reply failed otherwise than with -EAGAIN, spins exactly when it met -EAGAIN and another package follows, and else ends by itself, unless a header wraps |
| Receiving.ServerAnswers | 04-30_nwchecker_refactor/nwc_connection.c:108-139 | A server that receives any headers and payloads in any chunks answers exactly those before the first reply that fails. The i-th answer, field by field: the stamp of the i-th header sent, the clock at the answer, that clock minus the one behind the recv of the call that completed the package, modulo 2^32, and 4. Only -11 keeps the connection, without can_send; it spins exactly when another package follows |
| Receiving.BlockedReplySpins | 04-30_nwchecker_refactor/nwc_connection.c:115-138 | A call with two packages whose first reply meets -EAGAIN spins |
| Receiving.ClientRun | 04-30_nwchecker_refactor/nwc_connection.c:139-142 | Over a whole stream the client has processed every package in order, each with the clock of the call that completed it, and goes astray exactly when a header of the stream wraps |
| Receiving.ClientProcesses | 04-30_nwchecker_refactor/nwc_connection.c:139-142 | A client that receives any headers and payloads in any chunks goes through the protocol states of processing each header in order with the clock behind the recv of the call that completed it |
| Receiving.WrappingHeaderLeadsAstray | 04-30_nwchecker_refactor/nwc_connection.c:104-146 | One header of length 2^32 - 16 leads either side astray |
| Connection.Conn.OnSend | 04-30_nwchecker_refactor/nwc_connection.c:157-196 | A tick stops as soon as the slice is covered or a send fails; without a failure it sends between the slice and 1315 bytes more; each attempt queues one stamped package |
| Connection.Conn.EnqueueStamped | 04-30_nwchecker_refactor/nwc_connection.c:172-175 | The package queued by one attempt |
| Pacing.SliceIsLeastSufficient | 04-30_nwchecker_refactor/nwc_connection.c:54-66 | The slice is the least whose 20 ticks cover the configured rate; it is zero exactly for 1 to 7 bits per second |
| Pacing.RateIsEighth | 04-30_nwchecker_refactor/nwc_connection.c:54-62 | The configured rate: 125000 bytes per second for 0, otherwise an eighth of the bits, read as an unsigned word, rounded down |
| Pacing.UncoveredMeans | 04-30_nwchecker_refactor/nwc_connection.c:171-192 | Before each send of a tick what all the earlier ones returned, each of them positive, falls short of the slice |
| Pacing.WholeTick | 04-30_nwchecker_refactor/nwc_connection.c:171-192 | With whole sends a tick sends 1316 times the slice divided by 1316, rounded up |
| Pacing.OneSecondOfTicks | 04-30_nwchecker_refactor/nwc_connection.c:54-66 | Twenty ticks carry at least the configured rate and less than one package per tick more |
| Pacing.SendsAppendInOrder | 04-30_nwchecker_refactor/nwc_connection.c:171-192 | A tick of n sends appends n entries in order with its clock readings, adds n packages and 1316 n bytes modulo 2^32, and changes nothing else |
| PeerTable.PeersAreFirstOccurrences | 04-30_nwchecker_refactor/nwc_connection.c:238-246 | The connection list is the order-preserving deduplication of the datagram sources |
| PeerTable.UdpServer.Find | 04-30_nwchecker_refactor/nwc_connection.c:265-281 | The scan finds the first peer with the address and port, or none |
| PeerTable.UdpServer.Accept | 04-30_nwchecker_refactor/nwc_connection.c:216-263 | A new source is added at the tail, a known one is not, and either is answered at once, at its own address: the stamp in the answer is spelled by the first four bytes of the buffer, lowest first, its own when it sent that many; clock, delay 0 and length 4 beside it; an empty datagram is taken for a failed receive |
| RingList.RingIsUnique | 04-30_nwchecker_refactor/list.h:6-10 | A heap ring determines the sequence it holds |
| RingList.InitListHead | 04-30_nwchecker_refactor/list.h:12-16 | The empty ring |
| RingList.ListAdd | 04-30_nwchecker_refactor/list.h:29-32 | Insertion at the head refines prepending |
| RingList.ListAddTail | 04-30_nwchecker_refactor/list.h:34-37 | Insertion at the tail refines appending |
| RingList.ListDel | 04-30_nwchecker_refactor/list.h:39-50 | Deletion refines removal at the node's position and clears the node's links |
| RingList.ListEmpty | 04-30_nwchecker_refactor/list.h:52-55 | The emptiness test |
| RingList.DeleteWhere | 04-30_nwchecker_refactor/list.h:66-68 | A safe traversal that deletes on a condition visits every node once, in order, and leaves exactly the order-preserving filter |
| Sequences.ExceptIsExact | 04-30_nwchecker_refactor/list.h:66-68 | What the traversal leaves are exactly the nodes that are not doomed |
| WorkerLooper.Looper.constructor | 04-30_nwchecker_refactor/nwc_looper.c:26-33 | Two empty rings |
| WorkerLooper.Looper.RegisterWorker | 04-30_nwchecker_refactor/nwc_looper.c:4-13 | A worker joins the tail of the live list |
| WorkerLooper.Looper.CancelWorker | 04-30_nwchecker_refactor/nwc_looper.c:14-24 | A worker leaves whichever ring it is on and joins the tail of the removed ring, without callback |
| WorkerLooper.Looper.Dispatch | 04-30_nwchecker_refactor/nwc_looper.c:35-49 | For any cancellations: exactly the workers of RunOrder run, in order, with their own callback and userdata; the live list loses exactly the workers that a callback which ran cancels; the dispatch comes back to its own header, having freed nothing, exactly when no callback that runs cancels the worker that is next, and otherwise frees that worker, which never ran, and all parked behind it and ends up on the header of the removed ring |
| WorkerLooper.RunOrderMeans | 04-30_nwchecker_refactor/nwc_looper.c:35-49 | Which workers run: exactly those, in list order, that none which ran before cancels. A dispatch that strays does so on a worker that the last one to run cancels, that no other cancelled, and before which everything in between was cancelled |
| WorkerLooper.ParkedInOrder | 04-30_nwchecker_refactor/nwc_looper.c:14-24 | The removed list after a dispatch: the cancelled workers behind the ones parked before, in the order of the cancellations, when each was cancelled once |
| WorkerLooper.BackwardCancelsRunAll | 04-30_nwchecker_refactor/nwc_looper.c:35-49 | If callbacks cancel only themselves or workers already visited, every worker listed at the start runs exactly once in registration order |
| WorkerLooper.CancelledNextStrays | 04-30_nwchecker_refactor/nwc_looper.c:35-49 | Two workers of which the first cancels the second: the dispatch strays onto the second |
| WorkerLooper.ConnectionWorkersAllRun | 04-30_nwchecker_refactor/nwc_connection.c:206-214 | Dispatching the workers of the connections, any of which may close itself, is safe, runs every worker once, in order, and leaves the pairs of the connections that did not close |
| WorkerLooper.ConnectionsKeepPairs | 04-30_nwchecker_refactor/nwc_connection.c:198-214 | Opening a connection appends its pair of workers to the list, closing it takes away exactly its pair |
| WorkerLooper.Looper.RegisterConnection | 04-30_nwchecker_refactor/nwc_connection.c:198-204 | A connection registers its statistics worker and then its sender |
| WorkerLooper.Looper.DeleteRemoved | 04-30_nwchecker_refactor/nwc_looper.c:50-60 | Every cancelled worker is freed exactly once and the removed list is empty |
| TcpStack.OpenKeeps | 04-30_nwchecker_refactor/nwc_tcp_handler.c:28-85 | Opening a handler keeps the invariant: kernel interest equals the masks of live entries, registered exactly when not closed, EM_WRITE only while connecting, safe log |
| TcpStack.CloseKeeps | 04-30_nwchecker_refactor/nwc_tcp_handler.c:159-177 | Closing and freeing a handler keeps the invariant |
| TcpStack.RemaskKeeps | 04-30_nwchecker_refactor/nwc_epoll_looper.c:118-124 | Narrowing a mask keeps the invariant |
| TcpStack.DispatchKeeps | 04-30_nwchecker_refactor/nwc_epoll_looper.c:150-177 | Dispatching to a live entry keeps the log safe: nothing is delivered to an entry after its removal |
| TcpStack.ConnectedKeeps | 04-30_nwchecker_refactor/nwc_tcp_handler.c:251-255 | on_connect fires at most once for a handler |
| TcpStack.SendKeeps | 04-30_nwchecker_refactor/nwc_tcp_handler.c:136-139 | A send, blocked or not, of a handler that never blocked keeps the invariant: can_send holds exactly while no EAGAIN was met, and nothing is sent after one |
| TcpStack.FreeKeeps | 04-30_nwchecker_refactor/nwc_epoll_looper.c:180-185 | Freeing a parked entry keeps the invariant: freed once, after its removal |
| TcpStack.FreedAllIsExact | 04-30_nwchecker_refactor/nwc_epoll_looper.c:180-185 | The free loop frees every parked entry once, in the order of removal, and nothing else changes |
| TcpStack.CloseMeans | 04-30_nwchecker_refactor/nwc_tcp_handler.c:159-177 | A callback that closes a handler: its entry is marked, leaves the kernel and is parked, the handler is gone, and nothing else changes; a closed one is only freed |
| TcpStack.SendMeans | 04-30_nwchecker_refactor/nwc_connection.c:166-168 | A callback that sends: nothing without can_send; EAGAIN clears it |
| TcpStack.AcceptMeans | 04-30_nwchecker_refactor/nwc_tcp_handler.c:188-215 | A failed accept changes nothing, a declined one no handler; otherwise one more handler, established on the new descriptor, able to send, whose entry waits for input |
| TcpStack.OutputKeeps | 04-30_nwchecker_refactor/nwc_tcp_handler.c:222-260 | handle_output finds the handler connecting. SO_ERROR 111, 104, 110, 113, 101, 100 and 22 leave it so, without on_connect and no longer waiting for writability; 0 and every other error establish it and on_connect follows at once; the invariant is kept |
| TcpStack.ElementKeeps | 04-30_nwchecker_refactor/nwc_epoll_looper.c:150-177 | One element of the ready list keeps the invariant and is served: input for a hang-up, input, output, or a beginning of these when the entry was removed |
| TcpStack.BatchStep | 04-30_nwchecker_refactor/nwc_epoll_looper.c:150-177 | One element of the ready list keeps what the rest of the batch relies on: entries still allocated, reported writability still asked for |
| TcpStack.Stack.RegisterEvent | 04-30_nwchecker_refactor/nwc_epoll_looper.c:110-117 | The mask grows in the entry and in the kernel alike |
| TcpStack.Stack.CancelEvent | 04-30_nwchecker_refactor/nwc_epoll_looper.c:118-124 | The mask shrinks in the entry and in the kernel alike |
| TcpStack.Stack.RemoveHandler | 04-30_nwchecker_refactor/nwc_epoll_looper.c:96-109 | The entry leaves the kernel, is marked and parked |
| TcpStack.Stack.Listen | 04-30_nwchecker_refactor/nwc_tcp_handler.c:28-47 | New state of listen, or -1 and no change |
| TcpStack.Stack.Connect | 04-30_nwchecker_refactor/nwc_tcp_handler.c:49-76 | New state for an immediate, a pending and a refused connect |
| TcpStack.Stack.Accept | 04-30_nwchecker_refactor/nwc_tcp_handler.c:77-85 | New state of an accepted handler |
| TcpStack.Stack.Close | 04-30_nwchecker_refactor/nwc_tcp_handler.c:159-177 | Close parks the entry and closes the handler, and does nothing on a closed one |
| TcpStack.Stack.IoClose | 04-30_nwchecker_refactor/nwc.c:159-169 | Close, then free the handler |
| TcpStack.Stack.AcceptOne | 04-30_nwchecker_refactor/nwc_tcp_handler.c:183-215 | The same for the method, for what accept returned and on_accept decided: a failed accept changes nothing, a declined one no handler, an accepted one adds an established handler that waits for input |
| TcpStack.Stack.HandleInput | 04-30_nwchecker_refactor/nwc_tcp_handler.c:179-221 | One input is delivered; a listener then accepts what is offered, any other handler runs its callback, for given results and acts |
| TcpStack.Stack.FinishConnect | 04-30_nwchecker_refactor/nwc_tcp_handler.c:230-254 | For a given SO_ERROR: nothing on the seven fatal ones, written out; established and on_connect on 0 and every other |
| TcpStack.Stack.HandleOutput | 04-30_nwchecker_refactor/nwc_tcp_handler.c:222-260 | Called for an entry that waits for writability, so never through the NULL pointer of a listener and only while connecting; one output is delivered and EM_WRITE cancelled; for a given SO_ERROR the handler stays connecting and hears nothing, or is established and hears on_connect; the branch that sets can_send to 1 is never taken |
| TcpStack.Stack.DispatchOne | 04-30_nwchecker_refactor/nwc_epoll_looper.c:150-177 | A ready element delivers one input if a hang-up is reported, one if input is, and one output if writability is, in this order, or a beginning of it when its entry was removed by then |
| TcpStack.Stack.Batch | 04-30_nwchecker_refactor/nwc_epoll_looper.c:150-177 | The same for each element of a whole batch, in order, for any callbacks, accepts and socket errors |
| TcpStack.Stack.FreeRemoved | 04-30_nwchecker_refactor/nwc_epoll_looper.c:180-185 | The free loop refines FreedAll |
| TcpStack.Stack.Round | 04-30_nwchecker_refactor/nwc_epoll_looper.c:133-189 | For given acts of the workers, end of the wait, report of the kernel, and what the dispatched handlers meet, a round has one result: a wait that does not complete leaves exactly what the workers did; otherwise every reported element is delivered exactly what it asks for, or a beginning of it, nothing is parked afterwards and every removed entry has been freed |
| TcpStack.Stack.Run | 04-30_nwchecker_refactor/nwc_epoll_looper.c:126-195 | For given rounds, one each, up to and with the first wait that fails: each is such a round, the history only grows and stays safe, everything reported was served in order, and a handler has can_send exactly when its EAGAIN is nowhere in the history |
| TcpStack.TraceServes | 04-30_nwchecker_refactor/nwc_epoll_looper.c:150-177 | Over a whole run, what was delivered is, element by element and in order, what was reported |
| TcpStack.ConnectRound | 04-30_nwchecker_refactor/nwc_tcp_handler.c:222-254 | A round in which a connecting handler becomes writable: with a fatal SO_ERROR it stays connecting for good, without on_connect; with 0 or any other error it is established and on_connect follows the event |
| TcpStack.ReceiveRound | 04-30_nwchecker_refactor/nwc_tcp_handler.c:216-220 | A round in which an established handler becomes readable runs its callback once |
| TcpStack.AcceptRound | 04-30_nwchecker_refactor/nwc_tcp_handler.c:183-215 | A round in which a listener becomes readable adds an established handler on the new descriptor, or changes no handler when accept fails or on_accept declines |
| TcpStack.FirstConnection | 04-30_nwchecker_refactor/nwc_tcp_handler.c:77-85 | The first accepted connection on an empty stack, map by map, in a valid state |
| TcpStack.BlockedSenderStaysSilent | 04-30_nwchecker_refactor/nwc_connection.c:166-168 | After a send that meets EAGAIN the next one is not tried |
| SigioServer.EveryRunIsOrdered | 04-24_UNIX异步IO机制/sigio_udp_server.c:20-37 | In every run answered, listed, held and unread datagrams are the arrivals in order, and the handler never runs while the main loop tests, walks or unlinks |
| SigioServer.EveryArrivalCounts | 04-24_UNIX异步IO机制/sigio_udp_server.c:88-100 | What arrived in a run is what was in the socket and then every arrival, in order |
| SigioServer.EveryRunWakes | 04-24_UNIX异步IO机制/sigio_udp_server.c:88-100 | If the socket was empty when O_ASYNC was set, unread data always has a signal pending or a handler at work |
| SigioServer.StuckExactlyWhenUnreadAtStart | 04-24_UNIX异步IO机制/sigio_udp_server.c:88-100 | The server can sleep forever on unread datagrams exactly when some were in the socket before O_ASYNC was set |
| SigioServer.QuietMeansAllAnswered | 04-24_UNIX异步IO机制/sigio_udp_server.c:98-123 | Asleep with no signal pending means every arrival was answered, in order |
| SigioServer.WorkGetsDone | 04-24_UNIX异步IO机制/sigio_udp_server.c:20-123 | Every step but an arrival reduces the remaining work, and a step is enabled until the server is quiet |
| SigioServer.EverythingIsAnsweredEventually | 04-24_UNIX异步IO机制/sigio_udp_server.c:98-123 | From every reachable state the server, left alone, answers exactly the arrivals of the run, in order, and sleeps |
| SigioServer.Loops.SigioHandler | 04-24_UNIX异步IO机制/sigio_udp_server.c:20-37 | The handler's loop is the run of the machine its steps spell out, and moves the whole socket queue to the list |
| SigioServer.Loops.AnswerAll | 04-24_UNIX异步IO机制/sigio_udp_server.c:102-123 | The answering loop is such a run too, and answers and frees the whole list |
| ProcessPool.EveryRunOwns | 04-23_高级IO函数/nwchecker_server_multiprocess.c:203-268 | In every run each accepted connection is in exactly one place, the master's own list stays empty, an exit command is last in its queue, and stopped workers own nothing |
| ProcessPool.StepKeepsPlaces | 04-23_高级IO函数/nwchecker_server_multiprocess.c:221-234 | No step changes the number of places of a connection, but accepting gives the new one its first |
| ProcessPool.CloseLeavesTheNode | 04-23_高级IO函数/nwchecker_server_multiprocess.c:272-292 | A connection that ends is closed, and its node stays in the list, marked, until the next sweep |
| ProcessPool.SweepLeavesTheOpen | 04-23_高级IO函数/nwchecker_server_multiprocess.c:171-192 | A sweep leaves exactly the open nodes of one list, in order |
| ProcessPool.FailureClosesAll | 04-23_高级IO函数/nwchecker_server_multiprocess.c:194-201 | A worker whose select fails closes everything in its list and, unread, in its queue |
| ProcessPool.OneConnectionRun | 04-23_高级IO函数/nwchecker_server_multiprocess.c:203-268 | The whole life of a connection and of a server of one worker, step by step, from accept to the end of the master |
| ProcessPool.ExitFindsNothingUndelivered | 04-23_高级IO函数/nwchecker_server_multiprocess.c:233-235 | A worker about to read its exit command has nothing else in its queue |
| ProcessPool.MasterDoneMeansAllClosed | 04-23_高级IO函数/nwchecker_server_multiprocess.c:423-434 | When the master is done every worker has stopped and every accepted connection was closed exactly once; none undelivered unless a worker's select failed |
| ProcessPool.SignalShutsDown | 04-23_高级IO函数/nwchecker_server_multiprocess.c:345-349 | From every reachable state of a serving master a signal makes it leave its loop, and the shutdown can go on to its end |
| ProcessPool.ShutdownGetsDone | 04-23_高级IO函数/nwchecker_server_multiprocess.c:423-434 | Once the master left its loop every step of the shutdown reduces the remaining work, and one is enabled until the master is done, unless an exit command was lost |
| ProcessPool.ShutdownCompletesExactlyWhen | 04-23_高级IO函数/nwchecker_server_multiprocess.c:423-434 | From every reachable state of the shutdown it can still complete on its own exactly when the worker waited for has stopped or will read its exit command |
| ProcessPool.LostExitHangs | 04-23_高级IO函数/nwchecker_server_multiprocess.c:425-426 | After a lost exit command the master stays in waitpid, whatever else happens, unless that worker fails by itself |
| ProcessPool.LostExitRun | 04-23_高级IO函数/nwchecker_server_multiprocess.c:425-426 | The run of one worker whose exit command is lost: the master hangs |
| ProcessPool.SelectSets.Prepare | 04-23_高级IO函数/nwchecker_server_multiprocess.c:157-192 | The sweep unlinks exactly the nodes with descriptor -1 and keeps the others in order; the read set holds exactly the command socket, the listening socket of the master and the descriptors that want to read, the write set exactly those that want to write, and max_fd is the greatest of all |
| IOThreadQueue.EveryRunKeeps | java_netprogramming/src/com/haska/network/impl/IOThread.java:24-55 | In every run dispatched and queued events are the offers in order; a worker at select with events queued has a wakeup waiting or a producer about to wake it; and a stop is on its way to the worker, which exits for nothing else |
| IOThreadQueue.WorkGetsDone | java_netprogramming/src/com/haska/network/impl/IOThread.java:39-55 | Every step the threads take on their own reduces the remaining work, and one is enabled until all is quiet |
| IOThreadQueue.EverythingIsDispatchedEventually | java_netprogramming/src/com/haska/network/impl/IOThread.java:24-55 | From every reachable state the threads, left alone, come to rest: the worker has exited if it was stopped, and otherwise has dispatched everything offered, in order, and sleeps |
| IOThreadQueue.OfferIsDispatched | java_netprogramming/src/com/haska/network/impl/IOThread.java:24-27 | What a thread offers is dispatched right after everything offered before, unless the thread is stopped |
| IOThreadQueue.StopEndsTheThread | java_netprogramming/src/com/haska/network/impl/IOThread.java:29-37 | From every reachable state a stop leads to the exit of the worker |
| IOThreadQueue.IOThread.AddListener | java_netprogramming/src/com/haska/network/impl/IOThread.java:24-27 | An offer, then a wakeup |
| IOThreadQueue.IOThread.DispatchListeners | java_netprogramming/src/com/haska/network/impl/IOThread.java:39-44 | The loop dispatches everything queued at the start and then, event by event, everything added while it runs, in order |
| NonblockClient.Client.SendData | java_netprogramming/src/com/haska/nonblock/NonblockTCPServer.java:61-92 | A new response only once the previous one is out; it overflows exactly when larger than the limit, which the previous one left; written plus unsent stays the responses, framed, in order; canSend exactly when the channel takes all that is left, and OP_WRITE joins the interest set exactly when it does not |
| NonblockClient.Client.Fill | java_netprogramming/src/com/haska/nonblock/NonblockTCPServer.java:68-73 | putInt, put and flip leave exactly the frame to be read |
| NonblockClient.Client.Flush | java_netprogramming/src/com/haska/nonblock/NonblockTCPServer.java:78-88 | A partial write leaves exactly the unsent remainder and OP_WRITE registered |
| NonblockClient.Client.Handle | java_netprogramming/src/com/haska/nonblock/NonblockTCPServer.java:187-199 | One event of the selector loop: a failed receive closes and empties the interest set; a readable key adds OP_WRITE when a response is unfinished; a writable one waits for OP_WRITE afterwards exactly when a response is unfinished |
| NonblockClient.Client.Process | java_netprogramming/src/com/haska/nonblock/NonblockTCPServer.java:164-203 | For any events and partial writes the run is the machine's: the responses composed are the earlier ones and, in order, those of the events that found canSend; what was written extends what had been written and is those responses, framed, minus the unsent rest; the peer reads a prefix of them, and all whenever canSend is set; behind a writable event OP_WRITE is in the interest set exactly while a response is unfinished, and never as long as no write was partial |
| NonblockClient.StepMeans | java_netprogramming/src/com/haska/nonblock/NonblockTCPServer.java:61-92 | One event of the machine in full: close, overflow, a new response, or the rest of an old one |
| NonblockClient.NeverOverflowsExactlyWhen | java_netprogramming/src/com/haska/nonblock/NonblockTCPServer.java:65-90 | No partial writes of the channel lead to an overflow exactly when every response that may be composed is no longer than the one before it |
| NonblockClient.LongerResponseOverflows | java_netprogramming/src/com/haska/nonblock/NonblockTCPServer.java:65-90 | An empty response and then one of one byte overflow the buffer |
| NonblockClient.PeerReadsResponses | java_netprogramming/src/com/haska/nonblock/NonblockTCPServer.java:69-70 | A peer with the whole stream reads exactly the responses |
| NonblockClient.PeerReadsPrefix | java_netprogramming/src/com/haska/nonblock/NonblockTCPServer.java:78-88 | A peer with part of the stream reads a prefix of them, whole |
| MessageCodec.DecodeAfterEncode | java_netprogramming/src/com/haska/udpio/Message.java:68-104 | All header fields come back over their full signed ranges; the body is cut or padded to 512 bytes |
| MessageCodec.EncodeLayout | java_netprogramming/src/com/haska/udpio/Message.java:68-89 | The packet byte by byte: version, flag, sequence number and timestamp in two's complement, highest byte first, then the body |
| MessageCodec.ShortPacketKeepsTheRest | java_netprogramming/src/com/haska/udpio/Message.java:90-104 | A packet of less than 8 bytes replaces the fields it has whole and leaves the others |
| MessageCodec.PaddedMeans | java_netprogramming/src/com/haska/udpio/Message.java:99-100 | The received body: 512 bytes, zeros behind what was sent |
| MessageCodec.BodyComesBackExactlyWhen | java_netprogramming/src/com/haska/udpio/Message.java:99-100 | The body comes back exactly when it has 1 to 512 bytes; a longer one as its first 512; an empty one leaves bodyLength -1 |
| MessageCodec.ForwardingPads | java_netprogramming/src/com/haska/udpio/Message.java:68-104 | A received message sent on is padded: a datagram survives exactly when it has 520 bytes |
| MessageCodec.Message.Serialize | java_netprogramming/src/com/haska/udpio/Message.java:68-89 | The packet is the encoding, whatever the shared buffer held |
| MessageCodec.Message.Deserialize | java_netprogramming/src/com/haska/udpio/Message.java:90-105 | Fields are assigned in order; a short packet leaves the later ones as they were |

## Left out

- Socket setup, address lookup, option parsing, printing and process start-up: input and output only.
- `nwc_qos_milisecs`: the clock is a parameter; `QosSession` assumes it non-decreasing and below 2^32, which the function itself (nanoseconds divided by 1000) does not promise.
- QosSession.EveryAckFindsItsOwnPackage: assumes links that deliver whole packages in order; the links are TCP, so that a blocked send ends the sending on either side (a UDP client sends on); a partial send is never resumed by the program.
- Connection.Conn.OnRecv: leaves out what follows a close inside the loop, and what the program reads once a header that wraps has led it out of the buffer; a reply is sent whole or fails.
- Connection.Conn.OnSend: a failed send only sets the closed flag; the close itself is that of `TcpStack`.
- TcpStack.Stack.Run: what accept, on_accept, SO_ERROR and a handler's callback do is given for each dispatch, as closes and sends of handlers; the exit flag is not modelled; sends go through the connection layer, which tests can_send first; `epoll_ctl` always succeeds, addresses are not reused, and on_accept does not close the listener.
- The use of a connection after `nwc_connection_close` freed its handler: memory safety is claimed for epoll entries, handlers in the looper and workers.
- WorkerLooper.Looper.Dispatch: callbacks cancel workers but register none: the program registers workers only from on_connect and for an immediate connect, never from a worker; and what the program does after taking the header of the removed list for a worker is not modelled.
- The removal of lost packages from the sent queue does not free them, so no absence of leaks is claimed; neither is the printed loss rate modelled.
- Floating point: averages are real numbers without rounding.
- SigioServer.EveryRunWakes: recvfrom returns -1 only when the socket is empty; the unset descriptor of a queue node is not modelled.
- ProcessPool.EveryRunOwns: which worker the master picks is arbitrary, waitpid returns only for a worker that has ended, and the signal handler is one atomic step; fairness of the round robin is not modelled.
- ProcessPool.ShutdownCompletesExactlyWhen: the steps counted on are the program's own; that a worker which is not waited for goes on sweeping and closing connections is left to its own schedule.
- ProcessPool: the distributed steps act on values; the in-place update of a worker's list is shown for the sweep only.
- IOThreadQueue.EveryRunKeeps: steps are sequentially consistent; nothing is claimed about events still queued when the thread stops.
- NonblockClient.Client.Process: responses are ASCII, so that their length in characters is their length in bytes; an IOException of the write, the receiving side and its handling of an incomplete body are left out.
- The shared output buffer of the codec is used by one thread at a time.
- The earlier blocking clients and servers, multicast, interface listing and the Windows programs: nothing harder than the above.
