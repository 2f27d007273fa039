# lich: the session server's data plane, in Dafny

lich keeps a program running behind a pseudo-terminal and lets clients attach to it, dump its
output and type into it. This project models the part of it that moves bytes — the Rust server
and its clients in `src/main.rs`, and the C code in `c/` that must agree with them — and proves
what users rely on: no frame is torn, no output is lost or repeated where a replay meets live
output, a dump is exactly the history, keys arrive as typed, and the server always goes away once
its child has.

## How it is built

- `Protocol.dfy` — constants, packets, frames, chunks, the last-n-bytes window.
- `Codec.dfy` — the two decoders against a one-shot parse of the byte stream.
- `History.dfy` — the Rust deque and the C ring, both refining "the last 1 MiB appended".
- `Sending.dfy` — the bounded send queue in front of a socket with partial,
  blocked, interrupted and failing writes. The front slice of the deque may end anywhere.
- `Session.dfy` — the server as a state machine: what one tick of `server_loop` does.
- `Server.dfy`, `ServerLoop.dfy` — the same server as the source has it: a class `Client` updated
  in place and the loops of `server_loop`, every method proved to take the steps of `Session`;
  `SessionServer.Loop` is proved to be a `Run`.
- `Invariant.dfy`, `Runs.dfy` — what each step keeps of each client, lifted to every run.
- `Delivery.dfy` — what one tick sends a client, as batches of frames, and exactly when that has
  a gap.
- `Theorems.dfy`, `Shutdown.dfy`, `Gaps.dfy`, `EndToEnd.dfy` — the results about every reachable
  state, and the runs that reach a gap.
- `Lifetime.dfy` — who joins in a tick, who leaves and why, when a client is told to close, and when
  the server returns; `Pty.dfy` — what is read from the terminal and what clients do to it. Both
  say it in terms of their own, not in those of the step functions of `Session`.
- `Tail.dfy`, `Keys.dfy`, `Buffer.dfy`, `Posix.dfy` — line tails, key encoding, the C doubling
  buffer, and the plain write loops.

The environment is arbitrary: a `Tick` holds the shutdown flag, what `accept`, the terminal and
`waitpid` answer, and the clock readings; each client's socket comes with everything its reads and
writes will ever answer. Theorems quantify over all of it. The state also records the past: all
output, each client's wire, accepted packets, received bytes, processed packets and replays, and
every operation on the terminal with the client it came from. A client that was dropped stays in
`gone`, so results speak of everyone who ever connected.

Where the documentation and the code differ, the code decides. The notes on the Rust rewrite give
another packet layout (length first, a one-byte type, up to 4096 bytes of payload) than
`src/main.rs:1288-1294`, and the user documentation (`README.md:133`) promises the full session
output where the history keeps 1 MiB; `DumpEndToEnd`, `DumpLines`, `DumpBytes` and `DumpBoth` say
exactly when that is the same. Frame integers are little-endian here; the source uses the native order.

Three properties one might expect are false of the code. For each there is a concrete input that
shows it and an if-and-only-if that says when it holds.

- The packets decoded do not depend on how the stream is cut into reads. An oversized header
  clears the receive buffer, so `FragmentationMattersAfterOversized` has sixteen bytes that decode
  in two ways. By `FragmentationMattersIff` the cuts matter exactly when some frame starts in what
  follows the first oversized header.
- What a client is sent is a prefix of what it is due. A client being disconnected is still sent
  what fits until the tick is over. `OverflowLeavesGap` and `ReplayLeavesGap` are two runs from the
  start that leave a gap, by a chunk that overflows the queue and by a socket error in a replay.
  By `TickGapExact` a tick leaves a gap exactly when, after the first chunk or replay to be cut
  short, a later one finds room for its first frame; `BroadcastGapExact` says it of the chunks alone
  and their bytes, and `ReplayCutByQueue` that replays alone have a gap only after a socket error.
- Frames written straight to a non-blocking socket, without the queue, arrive whole. `TornFrame`
  has two kernel answers after which the receiver reads a packet nobody sent. By `TornUnlessWhole`
  the frames survive exactly when the kernel has room for all of the first one or for none.

## Model

| member | source | states |
|---|---|---|
| Codec.ParseEncoded | src/main.rs:1288-1294 | round trip: any list of packets with payloads up to 4088 bytes is recovered from its encoding, nothing left over |
| Codec.WireFormat | src/main.rs:1288-1294 | the frames of an attach, a detach, a resize, an exit status, a dump request and its end, keys and content, byte by byte |
| Codec.HeaderOf | src/main.rs:1288-1294 | the header of any frame says its type, and its length modulo 2^32, and the payload follows |
| Codec.ParsePrefix | src/main.rs:1308-1322 | any prefix of an encoded stream decodes to a prefix of the packets plus at most one frame cut short, never to a bad header |
| Codec.ParseAppend | src/main.rs:1365-1381 | later bytes only continue the parse, from what was left over; after an oversized header nothing further is parsed |
| Codec.FeedAllFrom | src/main.rs:902-920 | feeding a stream in any pieces reaches the one-shot parse, and meets its first oversized header after the same packets |
| Codec.FragmentationIndependent | src/main.rs:902-920 | two fragmentations of one stream decode the same packets up to the first oversized header, and everything when there is none |
| Codec.FragmentationMattersAfterOversized | src/main.rs:1371-1373 | past an oversized header it does matter: sixteen bytes whose two fragmentations decode differently |
| Codec.FragmentationMattersIff | src/main.rs:1365-1381 | every way of cutting a stream into reads decodes the same packets if and only if no header is out of range, or no frame starts in what follows the first that is |
| Codec.PopPacket | src/main.rs:1365-1381 | takes exactly the first frame of the parse, at least eight bytes of it, or clears the buffer at an oversized header |
| Codec.Receive | src/main.rs:902-920 | the packet loop terminates, yields the whole parse and leaves less than one packet |
| Codec.BlockingStream.RecvUntilError | src/main.rs:1349-1363 | receiving packet after packet yields the packets of the incremental decoder, and the error tells end of stream from an oversized header |
| Codec.BlockingStream.ReadExact | c/abduco.c:173-191 | returns the next n bytes whatever pieces they come in, or nothing when the stream ends first |
| Codec.BlockingStream.RecvPacket | src/main.rs:1349-1363 | the Rust and C receivers return the frame at the front of the stream, however it is fragmented, and consume exactly it |
| History.Deque.Append | src/main.rs:122-133 | after any appends of any lengths the deque is the last 1 MiB of everything appended |
| History.Ring.Append | c/server.c:78-98 | after any appends the ring, read from start modulo its size, is the last 1 MiB appended, and start and len stay in range |
| History.Ring.CopyIn | c/server.c:91-97 | the two copies of an append, the second from the front of the array, extend the contents by exactly the new bytes |
| History.Ring.SendHistory | c/server.c:144-168 | sends the replay and the end-of-dump packet in order, or the prefix before the first failing send |
| History.RingChunksCount | c/server.c:148-161 | how many packets the C replay takes, for every start position |
| History.HistoriesAgree | src/main.rs:961-976 | fed the same output both servers replay the same bytes; Rust in ceil(len/4088) packets, C in at most one more, equal when the ring has not wrapped |
| Protocol.ChunksFlatten | src/main.rs:963 | the chunks of a snapshot put together are the snapshot, and there are ceil(len/4088) of them |
| Sending.FlushMoves | src/main.rs:1323-1347 | under any answers a flush only moves bytes from the front of the queue to the end of the wire, and errs exactly when a write failed |
| Sending.FlushStops | src/main.rs:1323-1347 | a flush takes a prefix of the kernel's answers, errs exactly when the last of them fails or takes nothing, and otherwise leaves bytes queued only if it blocks |
| Sending.SendKeeps | src/main.rs:1308-1318 | wire and queue stay the accepted frames and the queue within 16 MiB; a packet is accepted whole or leaves no byte; the only other error is the socket's |
| Sending.SendHistoryKeeps | src/main.rs:961-986 | a replay adds its packets in order, all of them if it succeeds, and never an end-of-dump packet after a failure |
| Sending.ReplayPacketsMake | src/main.rs:963-969 | the packets of a replay fit the decoders' bound, carry exactly the window and cost its length plus eight bytes each |
| Sending.ReplayCost | src/main.rs:52-59 | a full replay with its end packet costs at most 1,050,640 bytes, and exactly that for a full history |
| Sending.ReplayFits | src/main.rs:961-986 | with that much room a replay never overflows: all its packets and the end packet are accepted unless the socket fails |
| Sending.DumpOutAppend | src/main.rs:1142-1149 | what the dump client gathers is settled by the first end-of-dump packet |
| Invariant.BroadcastKeeps | src/main.rs:988-1002 | broadcasting a chunk keeps every invariant of a client, with the output grown by that chunk |
| Invariant.HandleKeeps | src/main.rs:921-954 | so does processing any packet |
| Invariant.FirstDump | src/main.rs:931-936 | the first dump of a client that never attached queues the history and its end packet, or the socket has failed; nothing else can be heard as the dump |
| Invariant.ScheduleExitKeeps | src/main.rs:832-844 | so does scheduling MSG_EXIT, which adds at most one such packet |
| Invariant.HandleAllDecodes | src/main.rs:920-955 | the packet loop processes all packets parsed, in order, also after a disconnecting one |
| Invariant.ReadPacketsParses | src/main.rs:902-959 | the packets a client's sender has had processed are the parse of the bytes received, across reads and ticks |
| Invariant.ClientTickKeeps | src/main.rs:735-892 | a whole tick keeps every invariant of a client and undoes nothing recorded of it |
| Runs.StepGood | src/main.rs:735-892 | so does a whole tick of the server for everyone connected or gone, names and the terminal record included |
| Runs.RunGood | src/main.rs:724-893 | and every run |
| Theorems.FramesNeverTorn | src/main.rs:1300-1347 | for every client in every reachable state, wire and queue are the accepted frames, MSG_PID first, and any part of the wire decodes to a prefix of them and at most one frame cut short |
| Theorems.SentIsDue | src/main.rs:790-809 | a connected client has been sent, for each replay, the history as of then and all output since, nothing missing, repeated or reordered |
| Theorems.GaplessAttach | src/main.rs:926-930 | a client with one attach and no dump has been sent the output from 1 MiB before the attach on; what its peer has read is a prefix of that |
| Theorems.StampOfTick | src/main.rs:796-809 | the moment of a client's one replay is the output read by the end of the terminal loop of the tick that processed the request, and stays so over any run |
| Theorems.AttachOfTick | src/main.rs:926-930 | a client whose one attach is processed in tick t has been sent, in every later state while connected, the output from 1 MiB before the end of t's terminal loop on |
| Theorems.ClosedInTimeHasAll | src/main.rs:859-873 | a client the server closes before five thousand million nanoseconds are over has an empty queue and has been shown everything it was due |
| Theorems.QueuedOnlyIfBlocked | src/main.rs:847-857 | bytes stay queued over the end of a tick only if the kernel would not take them |
| Theorems.BroadcastExact | src/main.rs:988-1002 | a chunk reaches an attached client whole exactly when its frame fits the queue; otherwise not at all, and the client is disconnected |
| Delivery.GapExact | src/main.rs:988-1002 | of frames offered in batches to a queue, one is accepted after one left out if and only if a batch after the first one cut short finds room for its first frame |
| Delivery.TickGapExact | src/main.rs:796-823 | the same for all the chunks and replays that a tick offers a client |
| Delivery.BroadcastGapExact | src/main.rs:988-1002 | the chunks a tick's broadcasts get accepted are the first so many if and only if none after the first that overflows fits the queue left there |
| Delivery.ReplayCutByQueue | src/main.rs:961-976 | a replay cut short by the queue leaves no room for the next one, so only a socket error makes replays leave a gap |
| Gaps.TickShows | src/main.rs:735-892 | whoever takes part in a tick, gone at its end or not, shows a prefix of what is due unless the tick left a gap, and was sent all of it if nothing was cut short |
| Gaps.GoneSawPrefix | src/main.rs:875 | anyone gone has shown a prefix of what was due when they left, unless that last tick left a gap |
| Gaps.OverflowLeavesGap | src/main.rs:988-1002 | a run in which an attached client that takes nothing is refused a chunk and sent the next: not a prefix of what is due |
| Gaps.ReplayLeavesGap | src/main.rs:961-976 | a run with two attach requests in one read, the first cut short by a socket error: not a prefix of what is due |
| Theorems.DumpDelivers | src/main.rs:931-936 | a client that sends only MSG_DUMP hears exactly the history of the tick that processed it, or, if its socket fails, possibly nothing |
| Theorems.InputIntegrity | src/main.rs:921-925 | the record under a client's name is that of the packets processed for it, which are the parse of what it sent; every operation is by someone who connected |
| Pty.InputRules | src/main.rs:921-945 | that record is, packet by packet: content and keys as typed while the last attach was not read-only, and a size of two low-byte-first shorts for every resize of four bytes or more |
| Pty.ReadOnlyTypesNothing | src/main.rs:921-925 | a client that attaches with an odd flags word before anything else, and never otherwise, types nothing |
| Pty.WriterTypesAll | src/main.rs:921-925 | a client that never does types all its content and all its keys, in order |
| Pty.FourClients | src/main.rs:921-945 | four exchanges and what they leave: a size of 24 by 80, a size a byte short, a read-only client, and one that changes its mind twice |
| Pty.RecordInOrder | src/main.rs:821-823 | the operations of a tick are recorded client after client, in the order the clients came |
| Pty.TerminalRead | src/main.rs:790-810 | a tick adds to the output what the terminal delivers before the first answer that stops the loop; end of file and errors turn reading off, a lack of output does not, and with reading off and nobody joining nothing is read |
| Theorems.NobodyElseWrites | src/main.rs:921-945 | every operation on the terminal is one that the packets of exactly one client ask for |
| Theorems.ReadTakesAll | src/main.rs:904-918 | the read loop takes every byte delivered before the answer that stops it, and tells end of file, failure and not-ready apart |
| Theorems.BufferBound | src/main.rs:895-959 | a connected client's receive buffer is less than one packet, and with the packets processed makes up what it sent |
| Theorems.ExitDeliveredOnce | src/main.rs:825-845 | at most one MSG_EXIT per client, carrying the session's status, and none before a time to close is set |
| Theorems.ExitQueued | src/main.rs:830-845 | in a tick with the child gone, a client not yet closing gets a time to close, and its MSG_EXIT exactly when its queue has room |
| Theorems.ExitStatusRoundTrip | src/main.rs:1091 | the attached client reads back the very status, negative ones included, from its value modulo 2^32 |
| Theorems.ExitWriteOnce | src/main.rs:744-751 | the status never changes once set, by shutdown or by the child |
| Lifetime.StatusIs | src/main.rs:744-751 | a set status stays, else a shutdown gives 143, else it is what waitpid reports; the loop returns exactly when there is a status and everyone is disconnected |
| Lifetime.FinishedStays | src/main.rs:877-889 | nothing happens after the loop has returned |
| Theorems.RunTracks | src/main.rs:724-893 | over any run a client keeps its name, and its wire, accepted frames and records only grow |
| Theorems.ClosingIsFixed | src/main.rs:832-844 | over any run a set time to close is never moved and a closing client, say after a dump, gets no further MSG_EXIT |
| Lifetime.WhoJoins | src/main.rs:753-788 | exactly the connections made non-blocking before the first refusal join, in order, each with a name of its own, nothing processed, and a MSG_PID frame from which the process id is read back |
| Lifetime.WhoLeaves | src/main.rs:895-1002 | a client is dropped while being served if and only if its socket came to its end or failed, it sent MSG_DETACH or MSG_EXIT, or it could not be sent everything; its wire ends there |
| Lifetime.AllSentMeans | src/main.rs:961-1002 | everything was sent only if nothing was cut short, and if not, something was or the socket failed |
| Lifetime.WhoFlushes | src/main.rs:831-857 | whoever is still connected is then dropped only if the last write of the flush fails or takes nothing, not because MSG_EXIT found no room |
| Lifetime.TimeToClose | src/main.rs:830-845 | a time to close is the clock of the first tick with a dump request, else of the first with the child gone, and is never moved |
| Lifetime.ClosedIff | src/main.rs:862-873 | a client still connected after its flush is dropped exactly when it has a time to close and its queue is empty or 5,000,000,000 ns have passed |
| Shutdown.SurvivorsWait | src/main.rs:859-889 | with the child gone, every client left after a tick has bytes queued and a time to close less than 5,000,000,000 ns old |
| Shutdown.StepClosing | src/main.rs:862-889 | a tick five seconds after the last time to close ends the loop |
| Shutdown.BoundedShutdown | src/main.rs:744-889 | if the child is gone, or waitpid or a shutdown says so in the next tick, and nobody joins after it, the loop has returned by the first tick five seconds on, whatever the peers do |
| Shutdown.RunTime | src/main.rs:933-935 | on a monotonic clock no time to close ever lies in the future |
| Server.Client.TryFlush | src/main.rs:1323-1347 | the flush loop takes the steps of `Sending.Flush` and changes only the outgoing side |
| Server.Client.SendPacket | src/main.rs:1308-1318 | queues the packet or refuses it, as `Sending.Send` |
| Server.Client.SendHistory | src/main.rs:961-986 | the chunk loop over the snapshot is a replay of the last 1 MiB of all the output |
| Server.Client.PacketLoop | src/main.rs:920-955 | the interleaved loop of taking and handling packets handles the whole parse of the buffer in order |
| Server.Client.ReadPackets | src/main.rs:895-959 | reading and processing is the step of the state machine, and writes exactly this client's operations to the terminal |
| Server.BroadcastContent | src/main.rs:988-1002 | every client, attached or not, is stepped once, wherever it stands in the list |
| Server.ReadClients | src/main.rs:821-823 | the clients are served in order and the terminal record grows by their operations in that order |
| Server.Retain | src/main.rs:875 | keeps exactly the connected clients, in order |
| ServerLoop.SessionServer.AcceptAll | src/main.rs:753-788 | adds a client for each connection made non-blocking before the first refusal, and reading the terminal resumes if there is one |
| ServerLoop.SessionServer.ReadTerminal | src/main.rs:790-810 | each chunk goes to the history and to every client before the next is read |
| ServerLoop.SessionServer.Iterate | src/main.rs:735-892 | the phases in the loop's order are one step of the state machine |
| ServerLoop.SessionServer.Loop | src/main.rs:724-893 | the server loop is a run, so every theorem about reachable states is about it |
| Tail.TailLineStart | src/main.rs:1161-1180 | the backward scan returns where the last n lines begin, a trailing newline beginning no line; everything for n = 0 |
| Tail.StartOfLines | c/client.c:51-69 | the text after the n-th newline from the end, the last byte aside, is the last n lines |
| Tail.TwoLines | src/main.rs:1161-1180 | the last line of "a", "b", each ended by a byte 10, is the last two bytes |
| Tail.LastLinesCompose | src/main.rs:1161-1180 | the last m of the last n lines are the last min(m, n) |
| Tail.TailOfLast | src/main.rs:1150-1157 | the last n lines of the last k bytes are the last n lines of all exactly when those fit k bytes |
| Tail.WindowedTail | src/main.rs:1150-1157 | the last n lines of the kept history are those of all the output exactly when they fit it, up to the edge |
| Keys.LookupIsMatch | c/client.c:148-177 | the C key table and the Rust match name the same keys |
| Keys.CKeyTokenBytes | c/client.c:143-191 | the C encoder agrees with the Rust one on every argument |
| Keys.ControlKeys | src/main.rs:1227-1228 | `C-x` and `^x` are x modulo 32 for every byte x, Tab and Return included |
| Keys.ArrowKeys | src/main.rs:1219-1222 | the bytes of the arrow keys; `PlainNamedKeys`, `EditingKeys` and `LineKeys` have those of the others |
| Keys.PlainToken | src/main.rs:1192-1196 | a token that starts with a small letter types itself |
| Keys.NoControlKey | src/main.rs:1227-1229 | so does one that begins like a control key but is too long or too short |
| Keys.TwoCommandLines | src/main.rs:1186-1198 | `ls Enter` with key names and `ls Tab` taken literally, byte by byte |
| Keys.SendKeys | src/main.rs:1182-1208 | concatenating and cutting yields the full packets of what the tokens mean |
| Keys.KeyPacketsType | src/main.rs:1198-1206 | those packets carry exactly those bytes |
| Keys.CSendKeys | c/client.c:193-224 | sending token by token, with its own packet boundaries and separators, carries the same bytes |
| Buffer.GrowingBuffer.Append | c/client.c:29-49 | appends exactly the data, failing without change exactly when over 2^63 bytes or memory for growth is lacking; all blocks ever allocated sum to less than twice the last |
| Buffer.GrowingBuffer.Grown | c/client.c:33-39 | the doubling loop stays within size_t and finds a capacity that is 4096 or less than twice the need, exactly when the need is at most 2^63 |
| EndToEnd.DumpSession | src/main.rs:1131-1159 | prints the `-N`/`-L` cut of what the stream says, or fails, for every fragmentation |
| EndToEnd.FirstPacketAside | src/main.rs:1133 | the first packet, whatever it is, is no part of the dump |
| EndToEnd.ShownFrom | src/main.rs:1150-1157 | the offset both clients print from leaves the last n bytes and of those the last n lines; it is the beginning when neither is asked for |
| EndToEnd.CDumpSession | c/client.c:71-120 | wherever memory runs out the C client prints only what the Rust client prints, and prints it if there is memory for each packet of content and the first packet is MSG_PID |
| EndToEnd.DumpEndToEnd | src/main.rs:1131-1149 | a dump that is printed is the last 1 MiB of output as of the tick that processed its request, whatever others do and however bytes are split; the full output exactly when there was no more |
| EndToEnd.DumpOfTick | src/main.rs:1131-1149 | if the request is complete in tick t, what is printed, however much later, is the last 1 MiB of output as of the end of t |
| EndToEnd.DumpArrives | src/main.rs:977-985 | a processed request whose socket did not fail is heard to its end once the queue has drained |
| EndToEnd.DumpPlain | src/main.rs:1150-1157 | a plain `-d` prints the whole kept history, and everything the session ever wrote exactly when that is at most 1,048,576 bytes |
| EndToEnd.DumpLines | src/main.rs:1154-1156 | `-d -L n` prints the last n lines of all output exactly when they fit the history |
| EndToEnd.DumpBytes | src/main.rs:1150-1153 | `-d -N n` prints the last n bytes of all output, as far as the history goes, and when that is all of them |
| EndToEnd.DumpBoth | src/main.rs:1150-1157 | with `-N m` and `-L n` the lines are cut from the bytes, and are the last n lines of all output exactly when they fit m bytes and the history |
| EndToEnd.TypingArrives | src/main.rs:921-925 | whatever packets of keys a client sends, the terminal is written a prefix of the bytes they carry, and all of them once all has been received |
| EndToEnd.KeysArrive | src/main.rs:1182-1208 | for any tokens, what the terminal is written for the Rust key-sending client is a prefix of their bytes, and all of them once all has been received |
| EndToEnd.CKeysArrive | c/client.c:193-224 | so for the C client, with its own packets |
| Posix.WritesTheRoom | c/abduco.c:153-171 | what the write loops write is what the kernel takes before it first blocks, fails or takes nothing, as far as there are bytes |
| Posix.FlushFillsRoom | src/main.rs:1323-1347 | a flush of a send queue that lies in one piece moves exactly what the kernel takes before it first refuses, as far as there are bytes |
| Posix.Descriptor.WriteAll | c/abduco.c:153-171 | both write loops put exactly the counted prefix on the wire and leave the answers after the one that stopped them |
| Posix.Descriptor.CSendPacket | c/abduco.c:193-198 | true exactly when the kernel has room for the whole frame; the part there was room for stays on the wire |
| Posix.TornUnlessWhole | c/abduco.c:193-198 | after a send, every further frame is understood if and only if the kernel had room for all of this one or for none |
| Posix.TornFrame | c/abduco.c:193-198 | one byte taken and then a block: the next send succeeds and the receiver reads a packet nobody sent |

## Left out

- Newcomer: the MSG_PID frame is taken as fully written at accept; the source ignores the result of that one blocking write, and a connection that breaks during it is not modelled.
- InputIntegrity: speaks of the payloads handed to the terminal; `fd_write_all` on the non-blocking master may stop part-way and the source ignores that.
- BoundedShutdown: needs that nobody joins after the tick that sees the child gone, as the loop goes on while clients remain.
- ReadExact: a blocking socket, as the clients have it; that C's `read_all` stops short on a non-blocking one is not modelled.
- SendKeys: all sends succeed; a failing send ends both clients early.
- CSendKeys: as for SendKeys; its arguments are bytes without NUL, as a process receives them.
- ReadSocket: the lengths of single reads are not limited to 8192 bytes, which allows more than the source does.
- The signal sent to the child's process group on shutdown and on a resize, and file permissions, sockets' paths and the log.
- Decoding of the wait status into an exit status (`src/main.rs:1468-1476`): the status is an input.
- fork, pseudo-terminal creation, exec, the startup pipe, terminal modes, argument parsing, session listing and time formatting.
- `client_loop`, the interactive client: beyond what it shows of the stream, it is user interface.
- The C server's main loop and its client list, whose invariants are not those of the Rust server.
- Memory exhaustion in the Rust server, and the time a tick takes.
