/** The session server as a state machine: what one tick of `server_loop` does to each
    client and to the server. The classes in Server.dfy are proved to take these steps. */
module Session {
  import opened Protocol
  import opened Codec
  import opened Sending

  // ------------------------------------------------------------------ client

  /** What the kernel answers to one `read` of a client's socket; no bytes is end of file. */
  datatype ReadResult = Data(bytes: seq<byte>) | NotReady | Retry | Broken

  /** An operation on the pseudo-terminal's master side. */
  datatype PtyOp = Input(bytes: seq<byte>) | Winsize(rows: nat, cols: nat)

  /** A replay of the history: how much output there had been, and whether live output
      goes on being sent after it. */
  datatype Replay = Replay(at: nat, live: bool)

  /** The fields of `Client`, with the socket's future (`inbox`, `out.writes`) and records of
      its past: the bytes that reached the packet loop, the packets it took, the replays it
      sent and the terminal operations it made. */
  datatype ClientState = ClientState(
    id: nat, out: Outbox, inbox: seq<ReadResult>, buf: seq<byte>,
    attached: bool, flags: u32, disconnected: bool, closeAt: Option<nat>,
    fed: seq<byte>, decoded: seq<Packet>, replays: seq<Replay>, ops: seq<PtyOp>)

  /** `flags & CLIENT_READONLY == 0` */
  predicate MayWrite(flags: u32) { flags % 2 == 0 }

  /** One chunk of terminal output, in `broadcast_content`. */
  function Broadcast(c: ClientState, bytes: seq<byte>): ClientState {
    if !c.attached then c
    else
      var s := Send(c.out, Packet(MSG_CONTENT, bytes));
      c.(out := s.box, disconnected := c.disconnected || !s.ok)
  }

  function BroadcastAll(c: ClientState, chunks: seq<seq<byte>>): ClientState {
    if chunks == [] then c
    else Broadcast(BroadcastAll(c, chunks[..|chunks| - 1]), chunks[|chunks| - 1])
  }

  datatype Ending = Blocked | Eof | Failure

  datatype Reading = Reading(inbox: seq<ReadResult>, bytes: seq<byte>, ending: Ending)

  /** Read until the socket has no more for now. */
  function ReadSocket(inbox: seq<ReadResult>, got: seq<byte>): Reading
    decreases |inbox|
  {
    if inbox == [] then Reading([], got, Blocked)
    else
      match inbox[0]
      case Data(bytes) =>
        if bytes == [] then Reading(inbox[1..], got, Eof) else ReadSocket(inbox[1..], got + bytes)
      case NotReady => Reading(inbox[1..], got, Blocked)
      case Retry => ReadSocket(inbox[1..], got)
      case Broken => Reading(inbox[1..], got, Failure)
  }

  /** What a packet does to the terminal when its sender has these flags. */
  function OpOf(flags: u32, p: Packet): seq<PtyOp> {
    if p.typ == MSG_CONTENT || p.typ == MSG_SEND_KEYS then
      if MayWrite(flags) then [Input(p.payload)] else []
    else if p.typ == MSG_RESIZE && |p.payload| >= 4 then
      [Winsize(Value(p.payload[..2]), Value(p.payload[2..4]))]
    else []
  }

  function ReplayTo(c: ClientState, output: seq<byte>, sendEnd: bool): ClientState {
    var s := SendHistory(c.out, Window(output), sendEnd);
    c.(out := s.box, disconnected := c.disconnected || !s.ok,
       replays := c.replays + [Replay(|output|, c.attached)])
  }

  /** The `match` on a packet's type in `read_client_packets`. */
  function Handle(c: ClientState, p: Packet, output: seq<byte>, now: nat): ClientState {
    var d := c.(decoded := c.decoded + [p], ops := c.ops + OpOf(c.flags, p));
    if p.typ == MSG_ATTACH then
      var flags := if ReadU32(p.payload).Some? then ReadU32(p.payload).value else 0;
      ReplayTo(d.(attached := true, flags := flags), output, false)
    else if p.typ == MSG_DUMP then
      var e := ReplayTo(d, output, true);
      if e.closeAt.None? then e.(closeAt := Some(now)) else e
    else if p.typ == MSG_DETACH || p.typ == MSG_EXIT then d.(disconnected := true)
    else d
  }

  function HandleAll(c: ClientState, ps: seq<Packet>, output: seq<byte>, now: nat): ClientState
    decreases |ps|
  {
    if ps == [] then c else HandleAll(Handle(c, ps[0], output, now), ps[1..], output, now)
  }

  /** `read_client_packets` */
  function ReadPackets(c: ClientState, output: seq<byte>, now: nat): ClientState {
    var r := ReadSocket(c.inbox, []);
    if r.ending.Failure? then c.(inbox := r.inbox, buf := c.buf + r.bytes, disconnected := true)
    else
      var parsed := Parse(c.buf + r.bytes);
      var d := c.(inbox := r.inbox, buf := Leftover(parsed), fed := c.fed + r.bytes);
      var e := HandleAll(d, parsed.packets, output, now);
      if r.ending.Eof? then e.(disconnected := true) else e
  }

  function ExitPacket(status: i32): Packet { Packet(MSG_EXIT, U32Bytes(AsU32(status))) }

  /** Queue MSG_EXIT, unless the client is already closing. */
  function ScheduleExit(c: ClientState, status: i32, now: nat): ClientState {
    if c.disconnected || c.closeAt.Some? then c
    else c.(out := Send(c.out, ExitPacket(status)).box, closeAt := Some(now))
  }

  function FlushStep(c: ClientState): ClientState {
    if c.disconnected then c
    else var s := Flush(c.out); c.(out := s.box, disconnected := !s.ok)
  }

  /** `now.duration_since(t) >= EXIT_DRAIN_DEADLINE`; the difference saturates at zero. */
  predicate Expired(t: nat, now: nat) {
    (if now >= t then now - t else 0) >= EXIT_DRAIN_DEADLINE
  }

  function CloseStep(c: ClientState, now: nat): ClientState {
    if !c.disconnected && c.closeAt.Some? && (c.out.queue == [] || Expired(c.closeAt.value, now))
    then c.(disconnected := true) else c
  }

  /** What the rest of a tick shows a client: the output read from the terminal in this tick,
      all the output so far, the child's status, and three readings of the clock. */
  datatype TickIO = TickIO(chunks: seq<seq<byte>>, output: seq<byte>, exit: Option<i32>,
                           dumpAt: nat, exitAt: nat, now: nat)

  /** A client once the server has broadcast this tick's output and read its packets. */
  function Served(c: ClientState, io: TickIO): ClientState {
    ReadPackets(BroadcastAll(c, io.chunks), io.output, io.dumpAt)
  }

  function ExitStep(c: ClientState, io: TickIO): ClientState {
    if io.exit.Some? then ScheduleExit(c, io.exit.value, io.exitAt) else c
  }

  /** One client through one tick, in the order of the loop. */
  function ClientTick(c: ClientState, io: TickIO): ClientState {
    CloseStep(FlushStep(ExitStep(Served(c, io), io)), io.now)
  }

  // ------------------------------------------------------------------ server

  /** At most one packet's payload: the buffer the server reads the terminal into. */
  type Chunk = b: seq<byte> | |b| <= MAX_PAYLOAD

  datatype PtyRead = Output(bytes: Chunk) | PtyNotReady | PtyRetry | PtyFailed

  /** `accept`: a connection with its socket's future, whether it could be made non-blocking,
      or nothing more to accept. */
  datatype Accepting = Connection(nonblocking: bool, inbox: seq<ReadResult>, writes: seq<Write>) | NoConnection

  /** What the environment does during one tick. The clock functions give the reading taken
      for the client at each index. */
  datatype Tick = Tick(shutdown: bool, accepts: seq<Accepting>, pty: seq<PtyRead>, wait: Option<i32>,
                       dumpClock: nat -> nat, exitClock: nat -> nat, now: nat)

  /** The locals of `server_loop`; `gone` are the clients dropped, `output` is all the output
      ever read, `master` all the operations on the terminal with the client each came from. */
  datatype ServerState = ServerState(
    pid: nat, clients: seq<ClientState>, gone: seq<ClientState>, nextId: nat,
    output: seq<byte>, readPty: bool, exit: Option<i32>,
    master: seq<(nat, PtyOp)>, clock: nat, finished: bool)

  function Start(pid: nat, readPty: bool, clock: nat): ServerState {
    ServerState(pid, [], [], 0, [], readPty, None, [], clock, false)
  }

  function PidPacket(pid: nat): Packet { Packet(MSG_PID, LittleEndian(pid, 8)) }

  /** A client just accepted, with its MSG_PID frame on the wire. */
  function Newcomer(id: nat, pid: nat, inbox: seq<ReadResult>, writes: seq<Write>): ClientState {
    var p := PidPacket(pid);
    ClientState(id, Outbox([], writes, Encode(p), [p], false), inbox, [],
                false, 0, false, None, [], [], [], [])
  }

  /** The accept loop stops at the first answer that is not a connection. */
  function Newcomers(accepts: seq<Accepting>, id: nat, pid: nat): seq<ClientState>
    decreases |accepts|
  {
    if accepts == [] || accepts[0].NoConnection? then []
    else if !accepts[0].nonblocking then Newcomers(accepts[1..], id, pid)
    else [Newcomer(id, pid, accepts[0].inbox, accepts[0].writes)] + Newcomers(accepts[1..], id + 1, pid)
  }

  datatype PtyReading = PtyReading(chunks: seq<seq<byte>>, readPty: bool)

  function ReadPty(answers: seq<PtyRead>, chunks: seq<seq<byte>>): PtyReading
    decreases |answers|
  {
    if answers == [] then PtyReading(chunks, true)
    else
      match answers[0]
      case Output(bytes) =>
        if bytes == [] then PtyReading(chunks, false) else ReadPty(answers[1..], chunks + [bytes])
      case PtyNotReady => PtyReading(chunks, true)
      case PtyRetry => ReadPty(answers[1..], chunks)
      case PtyFailed => PtyReading(chunks, false)
  }

  const SHUTDOWN_STATUS: i32 := 128 + 15

  /** The child's status by the end of a tick: never changed once it is set. */
  function ExitAfter(exit: Option<i32>, t: Tick): Option<i32> {
    if exit.Some? then exit else if t.shutdown then Some(SHUTDOWN_STATUS) else t.wait
  }

  function PtyOf(readPty: bool, t: Tick): PtyReading {
    if readPty then ReadPty(t.pty, []) else PtyReading([], false)
  }

  /** Everyone taking part in a tick. */
  function Present(s: ServerState, t: Tick): seq<ClientState> {
    s.clients + Newcomers(t.accepts, s.nextId, s.pid)
  }

  function PtyIn(s: ServerState, t: Tick): PtyReading {
    PtyOf(s.readPty || Newcomers(t.accepts, s.nextId, s.pid) != [], t)
  }

  function OutputAfter(s: ServerState, t: Tick): seq<byte> {
    s.output + Flatten(PtyIn(s, t).chunks)
  }

  function IO(s: ServerState, t: Tick, i: nat): TickIO {
    TickIO(PtyIn(s, t).chunks, OutputAfter(s, t), ExitAfter(s.exit, t), t.dumpClock(i), t.exitClock(i), t.now)
  }

  /** Everyone present, after their tick. */
  function Ticked(s: ServerState, t: Tick): (cs: seq<ClientState>)
    ensures |cs| == |Present(s, t)|
  {
    seq(|Present(s, t)|, i requires 0 <= i < |Present(s, t)| => ClientTick(Present(s, t)[i], IO(s, t, i)))
  }

  function Connected(cs: seq<ClientState>): seq<ClientState> {
    if cs == [] then []
    else (if cs[0].disconnected then [] else [cs[0]]) + Connected(cs[1..])
  }

  function Dropped(cs: seq<ClientState>): seq<ClientState> {
    if cs == [] then []
    else (if cs[0].disconnected then [cs[0]] else []) + Dropped(cs[1..])
  }

  function Tagged(id: nat, ops: seq<PtyOp>): seq<(nat, PtyOp)> {
    if ops == [] then [] else [(id, ops[0])] + Tagged(id, ops[1..])
  }

  function OpsSince(c: ClientState, d: ClientState): seq<PtyOp> {
    if |c.ops| <= |d.ops| then d.ops[|c.ops|..] else []
  }

  /** The terminal operations of one tick, client by client. */
  function NewOps(before: seq<ClientState>, after: seq<ClientState>): seq<(nat, PtyOp)>
    requires |before| == |after|
  {
    if before == [] then []
    else Tagged(before[0].id, OpsSince(before[0], after[0])) + NewOps(before[1..], after[1..])
  }

  /** One iteration of `server_loop`. */
  function Step(s: ServerState, t: Tick): ServerState {
    var after := Ticked(s, t);
    var clients := Connected(after);
    var exit := ExitAfter(s.exit, t);
    s.(clients := clients,
       gone := s.gone + Dropped(after),
       nextId := s.nextId + |Newcomers(t.accepts, s.nextId, s.pid)|,
       output := OutputAfter(s, t),
       readPty := PtyIn(s, t).readPty,
       exit := exit,
       master := s.master + NewOps(Present(s, t), after),
       clock := t.now,
       finished := exit.Some? && clients == [])
  }

  /** A run: tick after tick until the loop returns. */
  function Run(s: ServerState, ticks: seq<Tick>): ServerState
    decreases |ticks|
  {
    if ticks == [] || s.finished then s else Run(Step(s, ticks[0]), ticks[1..])
  }

  lemma ConnectedMembers(cs: seq<ClientState>)
    ensures forall c :: c in Connected(cs) <==> c in cs && !c.disconnected
    ensures forall c :: c in Dropped(cs) <==> c in cs && c.disconnected
  {
  }
}
