/** What holds of every client in every reachable state of the server. */
module Theorems {
  import opened Protocol
  import opened Codec
  import opened Sending
  import opened Session
  import opened Invariant
  import opened Runs
  import opened Delivery

  /** Anyone who ever connected, in a state the server can be in. */
  ghost predicate Member(s: ServerState, c: ClientState) {
    Reachable(s) && (c in s.clients || c in s.gone)
  }

  lemma MemberInv(s: ServerState, c: ClientState)
    requires Member(s, c)
    ensures ClientInv(c, s.pid, s.output, s.exit)
    ensures c in s.clients ==> !c.disconnected
  {
    ReachableGood(s);
  }

  // ------------------------------------------------------------------ the wire

  /** Frames are conserved: the wire and the queue are the accepted frames, MSG_PID first,
      and whatever part of the wire a peer has read decodes to a prefix of them and at most
      one frame cut short. */
  lemma FramesNeverTorn(s: ServerState, c: ClientState, read: seq<byte>)
    requires Member(s, c) && read <= c.out.wire
    ensures c.out.wire + c.out.queue == EncodeAll(c.out.accepted)
    ensures [PidPacket(s.pid)] <= c.out.accepted
    ensures |c.out.queue| <= SEND_QUEUE_CAP
    ensures DecodesTo(read, Parse(read), c.out.accepted)
  {
    MemberInv(s, c);
    assert read <= c.out.wire + c.out.queue;
    ParsePrefix(c.out.accepted, read);
  }

  // ------------------------------------------------------------ the replay seam

  /** What a connected client has been sent is what it is due: each replay followed without
      a gap by the output since. */
  lemma SentIsDue(s: ServerState, c: ClientState)
    requires Member(s, c) && c in s.clients
    ensures Ordered(|s.output|, c.replays)
    ensures Contents(c.out.accepted) == Stream(s.output, c.replays)
  {
    MemberInv(s, c);
  }

  /** The output a history still held when `at` bytes had been produced, and all since. */
  function From(output: seq<byte>, at: nat): seq<byte>
    requires at <= |output|
  {
    output[if at > HISTORY_CAP then at - HISTORY_CAP else 0..]
  }

  lemma OneLiveReplay(output: seq<byte>, r: Replay)
    requires r.at <= |output| && r.live
    ensures Ordered(|output|, [r]) && Stream(output, [r]) == From(output, r.at)
  {
    assert Init([r]) == [] && Last([r]) == r;
    WindowThenRest(output, r.at);
    assert Stream(output[..r.at], []) == [];
    assert [] + Window(output[..r.at]) == Window(output[..r.at]);
  }

  lemma WindowThenRest(output: seq<byte>, at: nat)
    requires at <= |output|
    ensures Window(output[..at]) + output[at..] == From(output, at)
  {
  }

  /** The gapless attach stream: a client that asked for its one replay by attaching has been
      sent the output from 1 MiB before that moment on, with nothing missing, repeated or out
      of order at the seam; and what its peer has read so far shows a prefix of it. */
  lemma GaplessAttach(s: ServerState, c: ClientState, read: seq<byte>)
    requires Member(s, c) && c in s.clients && read <= c.out.wire
    requires ReplaysAsked(c.decoded) == 1 && AsksAttach(c.decoded)
    ensures |c.replays| == 1 && c.replays[0].at <= |s.output|
    ensures Contents(c.out.accepted) == From(s.output, c.replays[0].at)
    ensures Contents(Parse(read).packets) <= From(s.output, c.replays[0].at)
  {
    hide DecodesTo;
    SentIsDue(s, c);
    AttachedOnce(s, c);
    OneLiveReplay(s.output, c.replays[0]);
    assert c.replays == [c.replays[0]];
    ReadShows(s, c, read);
  }

  lemma AttachedOnce(s: ServerState, c: ClientState)
    requires Member(s, c) && ReplaysAsked(c.decoded) == 1 && AsksAttach(c.decoded)
    ensures |c.replays| == 1 && c.replays[0].live && c.replays[0].at <= |s.output|
  {
    MemberInv(s, c);
  }

  lemma ReadShows(s: ServerState, c: ClientState, read: seq<byte>)
    requires Member(s, c) && read <= c.out.wire
    ensures Parse(read).packets <= c.out.accepted
    ensures Contents(Parse(read).packets) <= Contents(c.out.accepted)
  {
    FramesNeverTorn(s, c, read);
    ContentsPrefix(Parse(read).packets, c.out.accepted);
  }

  lemma ContentsPrefix(a: seq<Packet>, b: seq<Packet>)
    requires a <= b
    ensures Contents(a) <= Contents(b)
  {
    ContentsAppend(a, b[|a|..]);
    assert b == a + b[|a|..];
  }

  lemma {:induction false} HandleAllStamps(c: ClientState, ps: seq<Packet>, output: seq<byte>, now: nat)
    ensures var d := HandleAll(c, ps, output, now);
            c.replays <= d.replays && forall r :: r in d.replays[|c.replays|..] ==> r.at == |output|
    decreases |ps|
  {
    hide Handle;
    if ps != [] {
      var e := Handle(c, ps[0], output, now);
      HandleStamps(c, ps[0], output, now);
      HandleAllStamps(e, ps[1..], output, now);
      var d := HandleAll(e, ps[1..], output, now);
      assert d.replays[|c.replays|..] == e.replays[|c.replays|..] + d.replays[|e.replays|..];
    }
  }

  /** The moment a replay is recorded at is the amount of output there was in the tick that
      processed its request. */
  lemma ReplaysStamped(c: ClientState, io: TickIO)
    ensures var d := ClientTick(c, io);
            c.replays <= d.replays && forall r :: r in d.replays[|c.replays|..] ==> r.at == |io.output|
  {
    hide Handle;
    var b := BroadcastAll(c, io.chunks);
    BroadcastAllLeaves(c, io.chunks);
    var r := ReadSocket(b.inbox, []);
    if !r.ending.Failure? {
      var parsed := Parse(b.buf + r.bytes);
      var d := b.(inbox := r.inbox, buf := Leftover(parsed), fed := b.fed + r.bytes);
      HandleAllStamps(d, parsed.packets, io.output, io.dumpAt);
    }
  }

  lemma DrainedShows(d: ClientState, pid: nat, output: seq<byte>, exit: Option<i32>)
    requires ClientInv(d, pid, output, exit) && !d.disconnected && d.out.queue == []
    ensures Ordered(|output|, d.replays)
    ensures Contents(Parse(d.out.wire).packets) == Stream(output, d.replays)
  {
    assert d.out.wire + d.out.queue == d.out.wire;
    ParseEncoded(d.out.accepted);
  }

  /** A client the server closes before its five seconds are over has been shown everything it
      was due: its queue has drained and its wire decodes to all of it. */
  lemma ClosedInTimeHasAll(s: ServerState, t: Tick, i: nat)
    requires Good(s) && i < |Present(s, t)|
    ensures var d := FlushStep(ExitStep(Served(Present(s, t)[i], IO(s, t, i)), IO(s, t, i)));
            var e := Ticked(s, t)[i];
            !d.disconnected && e.disconnected && (e.closeAt.Some? ==> t.now < e.closeAt.value + 5_000_000_000) ==>
              && e.out.queue == []
              && Ordered(|OutputAfter(s, t)|, e.replays)
              && Contents(Parse(e.out.wire).packets) == Stream(OutputAfter(s, t), e.replays)
  {
    hide Served, ExitStep, FlushStep, ClientInv, Continues, Good;
    var c, io := Present(s, t)[i], IO(s, t, i);
    PresentGood(s, t);
    ReadPtyChunks(t.pty, []);
    ServedKeeps(c, io, s.pid, s.output, s.exit);
    var b := Served(c, io);
    ExitStepKeeps(b, io, s.pid, s.exit);
    var e := ExitStep(b, io);
    FlushInv(e, s.pid, io.output, io.exit);
    var d := FlushStep(e);
    if !d.disconnected && d.out.queue == [] {
      DrainedShows(d, s.pid, io.output, io.exit);
    }
  }

  /** Bytes stay queued over the end of a tick only if the kernel would not take them. */
  lemma QueuedOnlyIfBlocked(c: ClientState, io: TickIO)
    ensures var e := ExitStep(Served(c, io), io);
            var d := ClientTick(c, io);
            !d.disconnected && d.out.queue != [] ==>
              d.out.writes == [] || LastTaken(e.out, d.out) == Some(WouldBlock)
  {
    hide Served, ExitStep, Flush;
    FlushStops(ExitStep(Served(c, io), io).out);
  }

  lemma FlushInv(c: ClientState, pid: nat, output: seq<byte>, exit: Option<i32>)
    requires ClientInv(c, pid, output, exit)
    ensures ClientInv(FlushStep(c), pid, output, exit)
  {
    FlushStepKeeps(c, pid, output, exit);
  }

  /** A chunk of output reaches an attached client whole exactly when its frame fits the
      queue, and not at all otherwise. */
  lemma BroadcastExact(c: ClientState, bytes: seq<byte>)
    requires Framed(c.out) && c.attached && 0 < |bytes| <= MAX_PAYLOAD
    ensures var d := Broadcast(c, bytes);
            var fits := |c.out.queue| + 8 + |bytes| <= SEND_QUEUE_CAP;
            && (fits <==> Contents(d.out.accepted) == Contents(c.out.accepted) + bytes)
            && (!fits ==> d.out == c.out && d.disconnected)
  {
    var p := Packet(MSG_CONTENT, bytes);
    SendKeeps(c.out, p);
    AddPacket(c.out.accepted, p);
  }

  // ------------------------------------------------------------------------ dump

  const DUMP_REQUEST := Packet(MSG_DUMP, [])

  /** All `dump_session` ever sends is one MSG_DUMP. */
  lemma OnlyDump(c: ClientState)
    requires DecodeInv(c) && InputInv(c) && c.fed <= Encode(DUMP_REQUEST)
    ensures c.decoded == (if c.fed == Encode(DUMP_REQUEST) then [DUMP_REQUEST] else [])
    ensures !c.attached && |c.replays| == |c.decoded|
  {
    assert EncodeAll([DUMP_REQUEST]) == Encode(DUMP_REQUEST) + EncodeAll([]);
    ParsePrefix([DUMP_REQUEST], c.fed);
    if c.fed == Encode(DUMP_REQUEST) {
      ParseEncoded([DUMP_REQUEST]);
    } else {
      RecvPartial(DUMP_REQUEST, c.fed);
    }
    assert Init([DUMP_REQUEST]) == [] && Last([DUMP_REQUEST]) == DUMP_REQUEST;
    assert ReplaysAsked([]) == 0 && ReplaysAsked([DUMP_REQUEST]) == 1;
    assert !AsksAttach([]) && !AsksAttach([DUMP_REQUEST]);
  }

  lemma DumpsOnce(s: ServerState, c: ClientState)
    requires Member(s, c) && c.fed <= Encode(DUMP_REQUEST)
    ensures if c.fed == Encode(DUMP_REQUEST) then
              && |c.replays| == 1 && c.replays[0].at <= |s.output|
              && (c.out.failed || DumpOut(c.out.accepted).Some?)
              && (DumpOut(c.out.accepted).Some? ==>
                    DumpOut(c.out.accepted).value == Window(s.output[..c.replays[0].at]))
            else DumpOut(c.out.accepted).None?
  {
    hide Encode, Window, Parse;
    MemberInv(s, c);
    OnlyDump(c);
  }

  /** A dump client that reaches the end-of-dump packet, having read whatever part of its wire,
      has gathered exactly the last 1 MiB of the output as of the tick that processed its
      request; and once the request is processed, that packet is on its way unless the
      socket has failed. */
  lemma DumpDelivers(s: ServerState, c: ClientState, read: seq<byte>)
    requires Member(s, c) && c.fed <= Encode(DUMP_REQUEST) && read <= c.out.wire
    ensures c.fed == Encode(DUMP_REQUEST) ==>
              && |c.replays| == 1 && c.replays[0].at <= |s.output|
              && (c.out.failed || DumpOut(c.out.accepted) == Some(Window(s.output[..c.replays[0].at])))
    ensures DumpOut(Parse(read).packets).Some? ==>
              && c.fed == Encode(DUMP_REQUEST)
              && DumpOut(Parse(read).packets).value == Window(s.output[..c.replays[0].at])
  {
    hide Member, Encode, Window;
    DumpsOnce(s, c);
    ReadShows(s, c, read);
    var got := Parse(read).packets;
    DumpOutAppend(got, c.out.accepted[|got|..]);
    assert c.out.accepted == got + c.out.accepted[|got|..];
  }

  // ----------------------------------------------------------------------- input

  /** The bytes a list of operations writes to the terminal. */
  function Written(ops: seq<PtyOp>): seq<seq<byte>> {
    if ops == [] then []
    else (if ops[0].Input? then [ops[0].bytes] else []) + Written(ops[1..])
  }

  /** The part of the terminal record that came from a client is what its packets ask for,
      in its own order, each under the flags in force when it was processed; and its packets
      are the parse of what it sent, however that was cut up. */
  lemma InputIntegrity(s: ServerState, c: ClientState)
    requires Member(s, c)
    ensures Project(s.master, c.id) == OpsOf(c.decoded)
    ensures Parse(c.fed).packets <= c.decoded
    ensures !Parse(c.fed).oversized ==> c.decoded == Parse(c.fed).packets
    ensures forall e :: e in s.master ==> exists d :: (d in s.clients || d in s.gone) && d.id == e.0
  {
    MemberInv(s, c);
    ReachableGood(s);
    forall e | e in s.master
      ensures exists d :: (d in s.clients || d in s.gone) && d.id == e.0
    {
      assert Known(s.clients, s.gone, e.0);
    }
  }

  /** ... and nobody else writes: every operation on the terminal is recorded under the name of
      exactly one client that connected, among those its packets ask for. */
  lemma NobodyElseWrites(s: ServerState, e: (nat, PtyOp)) returns (c: ClientState)
    requires Reachable(s) && e in s.master
    ensures (c in s.clients || c in s.gone) && c.id == e.0 && e.1 in OpsOf(c.decoded)
    ensures forall d :: (d in s.clients || d in s.gone) && d.id == e.0 ==> d == c
  {
    hide ClientInv;
    ReachableGood(s);
    assert Known(s.clients, s.gone, e.0);
    c :| (c in s.clients || c in s.gone) && c.id == e.0;
    InputIntegrity(s, c);
    InProjection(s.master, e);
    DistinctIds(s.clients);
  }

  lemma {:induction false} InProjection(log: seq<(nat, PtyOp)>, e: (nat, PtyOp))
    requires e in log
    ensures e.1 in Project(log, e.0)
  {
    if log[0] != e {
      assert e in log[1..];
      InProjection(log[1..], e);
    }
  }

  /** The receive buffer of a connected client holds less than one packet. */
  lemma BufferBound(s: ServerState, c: ClientState)
    requires Member(s, c) && c in s.clients
    ensures |c.buf| < 4096 && Incomplete(c.buf)
    ensures !Parse(c.fed).oversized ==> EncodeAll(c.decoded) + c.buf == c.fed
  {
    MemberInv(s, c);
    IncompleteBound(c.buf);
    ParseShape(c.fed);
  }

  /** The bytes a list of answers delivers. */
  function Delivered(answers: seq<ReadResult>): seq<byte> {
    if answers == [] then []
    else (if answers[0].Data? then answers[0].bytes else []) + Delivered(answers[1..])
  }

  predicate Stops(a: ReadResult) { a.NotReady? || a.Broken? || a == Data([]) }

  /** A reading has taken the first k answers and what they delivered, and nothing but the k-th
      answer, or their end, could have stopped it. */
  ghost predicate TookFirst(answers: seq<ReadResult>, got: seq<byte>, r: Reading, k: int) {
    && 0 <= k <= |answers| && r.inbox == answers[k..]
    && r.bytes == got + Delivered(answers[..k])
    && (forall j :: 0 <= j < k - 1 ==> !Stops(answers[j]))
    && (r.inbox != [] ==> k > 0 && Stops(answers[k - 1]))
    && (r.ending.Eof? <==> k > 0 && answers[k - 1] == Data([]))
    && (r.ending.Failure? <==> k > 0 && answers[k - 1].Broken?)
  }

  /** The read loop takes everything the socket delivers up to the first answer that stops it,
      and none after: nothing received is dropped. */
  lemma {:induction false} ReadTakesAll(answers: seq<ReadResult>, got: seq<byte>)
    ensures var r := ReadSocket(answers, got);
            TookFirst(answers, got, r, |answers| - |r.inbox|)
    decreases |answers|
  {
    if answers == [] || Stops(answers[0]) {
      TookOne(answers, got);
    } else {
      var a := answers[0];
      var next := if a.Data? then got + a.bytes else got;
      assert ReadSocket(answers, got) == ReadSocket(answers[1..], next);
      ReadTakesAll(answers[1..], next);
      var r := ReadSocket(answers, got);
      assert answers == [a] + answers[1..];
      TookMore(a, answers[1..], got, r, |answers| - 1 - |r.inbox|);
    }
  }

  lemma TookOne(answers: seq<ReadResult>, got: seq<byte>)
    requires answers == [] || Stops(answers[0])
    ensures var r := ReadSocket(answers, got);
            TookFirst(answers, got, r, |answers| - |r.inbox|)
  {
    assert answers[..0] == [] && got + [] == got;
    if answers != [] {
      assert answers[..1] == [answers[0]] && [answers[0]][1..] == [];
    }
  }

  lemma TookMore(a: ReadResult, answers: seq<ReadResult>, got: seq<byte>, r: Reading, k: int)
    requires !Stops(a) && TookFirst(answers, if a.Data? then got + a.bytes else got, r, k)
    ensures TookFirst([a] + answers, got, r, k + 1)
  {
    hide Delivered;
    var all := [a] + answers;
    assert all[..k + 1] == [a] + answers[..k] && all[k + 1..] == answers[k..];
    DeliveredCons(a, answers[..k]);
    assert forall j :: 0 < j < |all| ==> all[j] == answers[j - 1];
  }

  lemma DeliveredCons(a: ReadResult, rest: seq<ReadResult>)
    ensures Delivered([a] + rest) == (if a.Data? then a.bytes else []) + Delivered(rest)
  {
  }

  // ----------------------------------------------------------------- exit status

  /** At most one MSG_EXIT per client, and it carries the session's status. */
  lemma ExitDeliveredOnce(s: ServerState, c: ClientState)
    requires Member(s, c)
    ensures ExitPayloads(c) == [] || (s.exit.Some? && ExitPayloads(c) == [U32Bytes(AsU32(s.exit.value))])
    ensures c.closeAt.None? ==> ExitPayloads(c) == []
  {
    MemberInv(s, c);
  }

  /** In the tick that finds the child gone, a client still connected and not yet closing is
      given a time to close and its MSG_EXIT, which only a full queue can keep from it. */
  lemma ExitQueued(c: ClientState, io: TickIO, pid: nat, exit: Option<i32>)
    requires ClientInv(c, pid, io.output, exit) && io.exit.Some?
    requires !c.disconnected && c.closeAt.None?
    ensures var d := ExitStep(c, io);
            && d.closeAt == Some(io.exitAt)
            && (ExitPayloads(d) == [U32Bytes(AsU32(io.exit.value))] <==> !Overflows(c.out, ExitPacket(io.exit.value)))
  {
    var p := ExitPacket(io.exit.value);
    SendKeeps(c.out, p);
    AddPacket(c.out.accepted, p);
  }

  /** The attached peer reads the status back. */
  lemma ExitStatusRoundTrip(status: i32)
    ensures ReadU32(ExitPacket(status).payload) == Some(AsU32(status))
    ensures AsI32(AsU32(status)) == status
    ensures AsU32(status) == status % 0x1_0000_0000 && -0x8000_0000 <= AsI32(AsU32(status)) < 0x8000_0000
  {
    var b := U32Bytes(AsU32(status));
    U32RoundTrip(AsU32(status));
    assert b[..4] == b;
  }

  /** The status, once set, never changes. */
  lemma {:induction false} ExitWriteOnce(s: ServerState, ticks: seq<Tick>)
    requires s.exit.Some?
    ensures Run(s, ticks).exit == s.exit
    decreases |ticks|
  {
    if ticks != [] && !s.finished {
      ExitWriteOnce(Step(s, ticks[0]), ticks[1..]);
    }
  }

  lemma StepTracks(s: ServerState, t: Tick, c: ClientState) returns (d: ClientState)
    requires Good(s) && (c in s.clients || c in s.gone)
    ensures (d in Step(s, t).clients || d in Step(s, t).gone) && Continues(c, d)
  {
    hide ClientInv, ClientTick, Continues;
    if c in s.gone {
      assert Continues(c, c) by { ContinuesRefl(c); }
      return c;
    }
    var i :| 0 <= i < |s.clients| && s.clients[i] == c;
    assert Present(s, t)[i] == c;
    TickedKeeps(s, t, i);
    ConnectedMembers(Ticked(s, t));
    d := Ticked(s, t)[i];
    assert d in Ticked(s, t);
  }

  lemma ContinuesRefl(c: ClientState)
    ensures Continues(c, c)
  {
  }

  /** Over any run every client goes on under its own name: its wire, its accepted frames and
      its records only grow, a time to close once set is never moved, and a client that is
      already closing (after a dump, say) gets no further MSG_EXIT. */
  lemma {:induction false} RunTracks(s: ServerState, ticks: seq<Tick>, c: ClientState) returns (d: ClientState)
    requires Good(s) && (c in s.clients || c in s.gone)
    ensures (d in Run(s, ticks).clients || d in Run(s, ticks).gone) && Continues(c, d)
    decreases |ticks|
  {
    hide Good, Continues;
    if ticks == [] || s.finished {
      ContinuesRefl(c);
      return c;
    }
    var e := StepTracks(s, ticks[0], c);
    StepGood(s, ticks[0]);
    d := RunTracks(Step(s, ticks[0]), ticks[1..], e);
    ContinuesTrans(c, e, d);
  }

  /** Over every run, what `Continues` means for closing: the deadline of a client that is
      closing is fixed, and it is sent no further MSG_EXIT; so a client closing after a dump
      never gets one. */
  lemma ClosingIsFixed(s: ServerState, ticks: seq<Tick>, c: ClientState) returns (d: ClientState)
    requires Reachable(s) && (c in s.clients || c in s.gone) && c.closeAt.Some?
    ensures (d in Run(s, ticks).clients || d in Run(s, ticks).gone) && d.id == c.id
    ensures d.closeAt == c.closeAt && ExitPayloads(d) == ExitPayloads(c)
  {
    hide Good;
    ReachableGood(s);
    d := RunTracks(s, ticks, c);
  }

  // ------------------------------------------------------------- from tick to run

  lemma {:induction false} RunConcat(s: ServerState, a: seq<Tick>, b: seq<Tick>)
    ensures Run(s, a + b) == Run(Run(s, a), b)
    decreases |a|
  {
    hide Step;
    if a == [] {
      assert a + b == b;
    } else if !s.finished {
      assert (a + b)[1..] == a[1..] + b && (a + b)[0] == a[0];
      RunConcat(Step(s, a[0]), a[1..], b);
    }
  }

  lemma ReachableRun(s: ServerState, ticks: seq<Tick>)
    requires Reachable(s)
    ensures Reachable(Run(s, ticks))
  {
    hide Run;
    var pid, readPty, clock, before :| s == Run(Start(pid, readPty, clock), before);
    RunConcat(Start(pid, readPty, clock), before, ticks);
  }

  lemma ReachableStep(s: ServerState, t: Tick, ticks: seq<Tick>)
    requires Reachable(s) && !s.finished
    ensures Reachable(Step(s, t)) && Reachable(Run(Step(s, t), ticks))
  {
    hide Step, Reachable;
    assert [t][1..] == [] && Run(s, [t]) == Run(Step(s, t), []) == Step(s, t);
    ReachableRun(s, [t]);
    ReachableRun(Step(s, t), ticks);
  }

  lemma {:induction false} RunOutput(s: ServerState, ticks: seq<Tick>)
    ensures s.output <= Run(s, ticks).output
    decreases |ticks|
  {
    if ticks != [] && !s.finished {
      RunOutput(Step(s, ticks[0]), ticks[1..]);
    }
  }

  lemma OneName(s: ServerState, c: ClientState, d: ClientState)
    requires Good(s) && (c in s.clients || c in s.gone) && (d in s.clients || d in s.gone) && c.id == d.id
    ensures c == d
  {
    hide ClientInv;
    DistinctIds(s.clients);
  }

  /** Whoever bears, any number of ticks on, the name of someone who took part in tick t, is that
      client, gone on from there. */
  lemma FromTick(s: ServerState, t: Tick, i: nat, ticks: seq<Tick>, e: ClientState)
    requires Reachable(s) && !s.finished && i < |Present(s, t)|
    requires var s' := Run(Step(s, t), ticks);
             (e in s'.clients || e in s'.gone) && e.id == Ticked(s, t)[i].id
    ensures var c, d, s' := Present(s, t)[i], Ticked(s, t)[i], Step(s, t);
            && Good(s) && ClientInv(c, s.pid, s.output, s.exit)
            && ClientInv(d, s.pid, s'.output, s'.exit) && d == ClientTick(c, IO(s, t, i))
            && Continues(c, d) && Continues(d, e) && Member(Run(s', ticks), e)
  {
    hide ClientInv, ClientTick, Present, Ticked, Run, Good, Reachable, Continues;
    ReachableGood(s);
    PresentGood(s, t);
    TickedKeeps(s, t, i);
    ConnectedMembers(Ticked(s, t));
    StepGood(s, t);
    ReachableStep(s, t, ticks);
    var d := Ticked(s, t)[i];
    assert d in Ticked(s, t);
    var e' := RunTracks(Step(s, t), ticks, d);
    ReachableGood(Run(Step(s, t), ticks));
    assert e'.id == d.id by { NameKept(d, e'); }
    OneName(Run(Step(s, t), ticks), e', e);
  }

  lemma NameKept(c: ClientState, d: ClientState)
    requires Continues(c, d)
    ensures d.id == c.id
  {
  }

  /** The moment of a client's one replay is the end of the reading in the tick that processed its
      request, for as long as the server runs. */
  lemma StampOfTick(s: ServerState, t: Tick, i: nat, ticks: seq<Tick>, e: ClientState)
    requires Reachable(s) && !s.finished && i < |Present(s, t)|
    requires var s' := Run(Step(s, t), ticks);
             (e in s'.clients || e in s'.gone) && e.id == Ticked(s, t)[i].id
    requires Present(s, t)[i].replays == [] && Ticked(s, t)[i].replays != [] && |e.replays| == 1
    ensures e.replays == Ticked(s, t)[i].replays && e.replays[0].at == |Step(s, t).output|
    ensures Step(s, t).output <= Run(Step(s, t), ticks).output
  {
    hide ClientInv, ClientTick, Present, Ticked, Run, Good;
    var c, d := Present(s, t)[i], Ticked(s, t)[i];
    FromTick(s, t, i, ticks, e);
    ReplaysStamped(c, IO(s, t, i));
    assert d.replays[|c.replays|..] == d.replays && d.replays[0] in d.replays;
    RunOutput(Step(s, t), ticks);
  }

  /** The gapless attach stream by the tick: a client whose one request, to attach, is processed
      in tick t has been sent, for as long as it stays connected, the output from 1 MiB before the
      end of tick t's reading on, and its peer sees a prefix of that. */
  lemma AttachOfTick(s: ServerState, t: Tick, i: nat, ticks: seq<Tick>, e: ClientState, read: seq<byte>)
    requires Reachable(s) && !s.finished && i < |Present(s, t)|
    requires !AsksAttach(Present(s, t)[i].decoded) && AsksAttach(Ticked(s, t)[i].decoded)
    requires e in Run(Step(s, t), ticks).clients && e.id == Ticked(s, t)[i].id
    requires ReplaysAsked(e.decoded) == 1 && read <= e.out.wire
    ensures var s' := Run(Step(s, t), ticks);
            && |Step(s, t).output| <= |s'.output|
            && Contents(e.out.accepted) == From(s'.output, |Step(s, t).output|)
            && Contents(Parse(read).packets) <= From(s'.output, |Step(s, t).output|)
  {
    hide ClientInv, ClientTick, Present, Ticked, Run, Step, Good, Reachable, From, Contents, Parse;
    var c, d, s' := Present(s, t)[i], Ticked(s, t)[i], Run(Step(s, t), ticks);
    FromTick(s, t, i, ticks, e);
    MemberInv(s', e);
    Attaching(c, s.pid, s.output, s.exit);
    Attaching(d, s.pid, Step(s, t).output, Step(s, t).exit);
    Attaching(e, s'.pid, s'.output, s'.exit);
    OneReplay(c, d, e);
    StampOfTick(s, t, i, ticks, e);
    GaplessAttach(s', e, read);
  }

  lemma Attaching(c: ClientState, pid: nat, output: seq<byte>, exit: Option<i32>)
    requires ClientInv(c, pid, output, exit)
    ensures AsksAttach(c.decoded) == LiveNow(c.replays)
    ensures |c.replays| == ReplaysAsked(c.decoded)
  {
  }

  lemma OneReplay(c: ClientState, d: ClientState, e: ClientState)
    requires Continues(c, d) && Continues(d, e) && |e.replays| == 1 && !LiveNow(c.replays) && LiveNow(d.replays)
    ensures c.replays == [] && d.replays == e.replays
  {
  }
}
