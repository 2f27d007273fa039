/** What those who are gone have seen, and runs that leave a gap. */
module Gaps {
  import opened Protocol
  import opened Codec
  import opened Sending
  import opened Session
  import opened Invariant
  import opened Runs
  import opened Delivery
  import opened Theorems

  // -------------------------------------------------------------------- one tick

  lemma ClosingKeepsContent(c: ClientState, io: TickIO)
    requires Framed(c.out)
    ensures var d := CloseStep(FlushStep(ExitStep(c, io)), io.now);
            ContentOf(d.out.accepted) == ContentOf(c.out.accepted) && d.replays == c.replays
  {
    var e := ExitStep(c, io);
    if io.exit.Some? {
      var p := ExitPacket(io.exit.value);
      SendKeeps(c.out, p);
      PayloadsAppend(c.out.accepted, [p], MSG_CONTENT);
      assert [p][1..] == [];
    }
    FlushMoves(e.out);
  }

  /** The content a tick gets accepted, and what is due by its end. */
  lemma TickContent(c: ClientState, io: TickIO, output: seq<byte>, pid: nat, exit: Option<i32>)
    requires ClientInv(c, pid, output, exit) && !c.disconnected
    requires io.output == output + Flatten(io.chunks)
    requires forall ch :: ch in io.chunks ==> |ch| <= MAX_PAYLOAD
    requires io.output == [] ==> io.chunks == []
    ensures var d, bs := ClientTick(c, io), TickBatches(c, io);
            && Ordered(|io.output|, d.replays)
            && Contents(d.out.accepted) == Contents(c.out.accepted) + Flatten(TakenPayloads(c.out, bs))
            && Stream(io.output, d.replays) == Contents(c.out.accepted) + Flatten(DuePayloads(bs))
  {
    hide Served, ExitStep, FlushStep, TickBatches, TakenPayloads, DuePayloads, Stream, Ordered, DumpInv, InputInv;
    TickShape(c, io);
    ServedDelivers(c, io);
    DeliverAllAccepts(c.out, TickBatches(c, io));
    FlattenAppend(ContentOf(c.out.accepted), TakenPayloads(c.out, TickBatches(c, io)));
    TickDue(c, io, output);
    ClosingKeepsContent(Served(c, io), io);
  }

  lemma {:induction false} PtyChunksWhole(answers: seq<PtyRead>, chunks: seq<seq<byte>>)
    requires forall b :: b in chunks ==> b != []
    ensures forall b :: b in ReadPty(answers, chunks).chunks ==> b != []
    decreases |answers|
  {
    if answers != [] {
      match answers[0]
      case Output(bytes) =>
        if bytes != [] {
          PtyChunksWhole(answers[1..], chunks + [bytes]);
        }
      case PtyNotReady =>
      case PtyRetry => PtyChunksWhole(answers[1..], chunks);
      case PtyFailed =>
    }
  }

  lemma ChunksMakeOutput(s: ServerState, t: Tick)
    ensures forall ch :: ch in PtyIn(s, t).chunks ==> |ch| <= MAX_PAYLOAD
    ensures OutputAfter(s, t) == [] ==> PtyIn(s, t).chunks == []
  {
    ReadPtyChunks(t.pty, []);
    PtyChunksWhole(t.pty, []);
    var chunks := PtyIn(s, t).chunks;
    if chunks != [] {
      assert chunks[0] in chunks && |Flatten(chunks)| >= |chunks[0]|;
    }
  }

  /** Whoever takes part in a tick, gone at its end or not: unless the tick left a gap, their
      wire shows a prefix of the output due to them, and nothing due has been left out unless
      something was cut short. */
  lemma TickShows(s: ServerState, t: Tick, i: nat, read: seq<byte>)
    requires Good(s) && i < |Present(s, t)| && read <= Ticked(s, t)[i].out.wire
    ensures var c, d, output := Present(s, t)[i], Ticked(s, t)[i], OutputAfter(s, t);
            var bs := TickBatches(c, IO(s, t, i));
            && Ordered(|output|, d.replays)
            && (Gapless(Takes(c.out, bs), bs) ==> Contents(Parse(read).packets) <= Stream(output, d.replays))
            && (FirstCut(c.out, bs).Uncut? ==> Contents(d.out.accepted) == Stream(output, d.replays))
  {
    hide ClientInv, ClientTick, TickBatches, Gapless, Takes, FirstCut, Stream, Ordered, Present, Good,
      TakenPayloads, DuePayloads, OutputAfter, PtyIn, Continues;
    var c, d, io := Present(s, t)[i], Ticked(s, t)[i], IO(s, t, i);
    var bs := TickBatches(c, io);
    PresentGood(s, t);
    TickedKeeps(s, t, i);
    ChunksMakeOutput(s, t);
    assert io.output == s.output + Flatten(io.chunks) by { OutputGrows(s, t); }
    TickContent(c, io, s.output, s.pid, s.exit);
    WireShows(d, s.pid, OutputAfter(s, t), ExitAfter(s.exit, t), read);
    if FirstCut(c.out, bs).Uncut? {
      UncutGapless(c.out, bs);
    }
    if Gapless(Takes(c.out, bs), bs) {
      GaplessPrefix(c.out, bs);
      FlattenPrefix(TakenPayloads(c.out, bs), DuePayloads(bs));
    }
  }

  lemma UncutGapless(o: Outbox, bs: seq<Batch>)
    requires FirstCut(o, bs).Uncut?
    ensures Gapless(Takes(o, bs), bs)
  {
    UncutIsWhole(o, bs);
  }

  lemma OutputGrows(s: ServerState, t: Tick)
    ensures OutputAfter(s, t) == s.output + Flatten(PtyIn(s, t).chunks)
    ensures Step(s, t).output == OutputAfter(s, t)
  {
  }

  lemma WireShows(d: ClientState, pid: nat, output: seq<byte>, exit: Option<i32>, read: seq<byte>)
    requires ClientInv(d, pid, output, exit) && read <= d.out.wire
    ensures Contents(Parse(read).packets) <= Contents(d.out.accepted)
  {
    assert read <= d.out.wire + d.out.queue;
    ParsePrefix(d.out.accepted, read);
    ContentsPrefix(Parse(read).packets, d.out.accepted);
  }

  lemma FlattenPrefix(a: seq<seq<byte>>, b: seq<seq<byte>>)
    requires a <= b
    ensures Flatten(a) <= Flatten(b)
  {
  }

  // ---------------------------------------------------------------- those gone

  /** Everyone gone left in some tick of the run. */
  lemma {:induction false} Departure(s: ServerState, ticks: seq<Tick>, c: ClientState) returns (k: nat, i: nat)
    requires Good(s) && c in Run(s, ticks).gone && c !in s.gone
    ensures k < |ticks| && Good(Run(s, ticks[..k]))
    ensures i < |Present(Run(s, ticks[..k]), ticks[k])| && Ticked(Run(s, ticks[..k]), ticks[k])[i] == c
    decreases |ticks|
  {
    hide Good, Step, Ticked, Present;
    assert ticks != [] && !s.finished;
    var s' := Step(s, ticks[0]);
    StepGood(s, ticks[0]);
    if c in s'.gone {
      i := DroppedAt(s, ticks[0], c);
      k := 0;
      assert ticks[..0] == [];
    } else {
      k, i := Departure(s', ticks[1..], c);
      k := k + 1;
      assert ticks[..k][1..] == ticks[1..][..k - 1] && ticks[..k][0] == ticks[0];
    }
  }

  lemma DroppedAt(s: ServerState, t: Tick, c: ClientState) returns (i: nat)
    requires c in Step(s, t).gone && c !in s.gone
    ensures i < |Present(s, t)| && Ticked(s, t)[i] == c
  {
    hide ClientTick;
    ConnectedMembers(Ticked(s, t));
    i :| 0 <= i < |Ticked(s, t)| && Ticked(s, t)[i] == c;
  }

  /** What anyone gone has read shows a prefix of what they were due in the tick they left,
      unless that tick left a gap; `TickGapExact` says exactly when it does. */
  lemma GoneSawPrefix(s: ServerState, c: ClientState, read: seq<byte>)
    returns (s': ServerState, t: Tick, i: nat)
    requires Reachable(s) && c in s.gone && read <= c.out.wire
    ensures Reachable(s') && Good(s') && i < |Present(s', t)| && Ticked(s', t)[i] == c
    ensures Ordered(|OutputAfter(s', t)|, c.replays)
    ensures var d, bs := Present(s', t)[i], TickBatches(Present(s', t)[i], IO(s', t, i));
            Gapless(Takes(d.out, bs), bs) ==>
              Contents(Parse(read).packets) <= Stream(OutputAfter(s', t), c.replays)
  {
    hide Good, Present, Ticked, Run, Gapless, Takes, TickBatches;
    var pid, readPty, clock, ticks :| s == Run(Start(pid, readPty, clock), ticks);
    StartGood(pid, readPty, clock);
    var k;
    k, i := Departure(Start(pid, readPty, clock), ticks, c);
    s', t := Run(Start(pid, readPty, clock), ticks[..k]), ticks[k];
    TickShows(s', t, i, read);
  }

  // ------------------------------------------------------------ the overflow gap

  /** n times the same chunk. */
  function Copies(n: nat, chunk: seq<byte>): seq<seq<byte>> {
    if n == 0 then [] else Copies(n - 1, chunk) + [chunk]
  }

  /** Nothing ever leaves the queue of a peer that never takes a byte. */
  lemma StuckSend(o: Outbox, p: Packet)
    requires o.writes == []
    ensures Send(o, p) == if Overflows(o, p) then Sent(o, false) else Sent(Enqueue(o, p), true)
  {
  }

  lemma {:induction false} StuckCopies(c: ClientState, n: nat, chunk: seq<byte>)
    requires c.attached && c.out.writes == [] && !c.disconnected
    requires |c.out.queue| + n * (8 + |chunk|) <= SEND_QUEUE_CAP
    ensures var d := BroadcastAll(c, Copies(n, chunk));
            && d == c.(out := d.out)
            && d.out.writes == [] && |d.out.queue| == |c.out.queue| + n * (8 + |chunk|)
            && ContentOf(d.out.accepted) == ContentOf(c.out.accepted) + Copies(n, chunk)
  {
    hide Send, Enqueue, Overflows;
    if n > 0 {
      var chunks := Copies(n, chunk);
      assert Init(chunks) == Copies(n - 1, chunk) && Last(chunks) == chunk;
      assert (n - 1) * (8 + |chunk|) + (8 + |chunk|) == n * (8 + |chunk|);
      StuckCopies(c, n - 1, chunk);
      StuckBroadcast(BroadcastAll(c, Copies(n - 1, chunk)), chunk);
    }
  }

  lemma StuckBroadcast(c: ClientState, chunk: seq<byte>)
    requires c.attached && c.out.writes == []
    ensures var d := Broadcast(c, chunk);
            if |c.out.queue| + 8 + |chunk| > SEND_QUEUE_CAP then d == c.(disconnected := true)
            else
              && d == c.(out := d.out)
              && d.out.writes == [] && |d.out.queue| == |c.out.queue| + 8 + |chunk|
              && ContentOf(d.out.accepted) == ContentOf(c.out.accepted) + [chunk]
  {
    var p := Packet(MSG_CONTENT, chunk);
    StuckSend(c.out, p);
    PayloadsAppend(c.out.accepted, [p], MSG_CONTENT);
    assert [p][1..] == [];
  }

  function Zeros(n: nat): (z: seq<byte>)
    ensures |z| == n
  {
    if n == 0 then [] else Zeros(n - 1) + [0]
  }

  function Full(): seq<byte> { Zeros(MAX_PAYLOAD) }

  function Nearly(): seq<byte> { Zeros(4079) }

  /** A queue filled to nine bytes below its limit, then a chunk that does not fit, then one
      that does. */
  function Flood(): seq<seq<byte>> { Copies(4095, Full()) + [Nearly(), [1, 1], [2]] }

  lemma BroadcastLast(c: ClientState, chunks: seq<seq<byte>>, x: seq<byte>)
    ensures BroadcastAll(c, chunks + [x]) == Broadcast(BroadcastAll(c, chunks), x)
  {
  }

  lemma FloodedClient(c: ClientState)
    requires c.attached && c.out.writes == [] && !c.disconnected && c.out.queue == []
    ensures var d := BroadcastAll(c, Flood());
            && d == c.(out := d.out, disconnected := true)
            && ContentOf(d.out.accepted) == ContentOf(c.out.accepted) + Copies(4095, Full()) + [Nearly(), [2]]
  {
    hide Broadcast, ContentOf, Copies, Zeros;
    var copies := Copies(4095, Full());
    assert Flood() == ((copies + [Nearly()]) + [[1, 1]]) + [[2]];
    StuckCopies(c, 4095, Full());
    var c0 := BroadcastAll(c, copies);
    StuckBroadcast(c0, Nearly());
    var c1 := Broadcast(c0, Nearly());
    StuckBroadcast(c1, [1, 1]);
    var c2 := Broadcast(c1, [1, 1]);
    StuckBroadcast(c2, [2]);
    BroadcastLast(c, copies, Nearly());
    BroadcastLast(c, copies + [Nearly()], [1, 1]);
    BroadcastLast(c, (copies + [Nearly()]) + [[1, 1]], [2]);
    assert ContentOf(c.out.accepted) + copies + [Nearly()] + [[2]] == ContentOf(c.out.accepted) + copies + [Nearly(), [2]];
  }

  // ------------------------------------------------------------- concrete runs

  const ATTACH: Packet := Packet(MSG_ATTACH, [])

  function Quiet(accepts: seq<Accepting>, pty: seq<PtyRead>): Tick {
    Tick(false, accepts, pty, None, _ => 0, _ => 0, 0)
  }

  /** As much of some bytes as one read takes. */
  function OneRead(bytes: seq<byte>): Chunk {
    if |bytes| <= MAX_PAYLOAD then bytes else bytes[..MAX_PAYLOAD]
  }

  function Outputs(chunks: seq<seq<byte>>): seq<PtyRead> {
    if chunks == [] then [] else [Output(OneRead(chunks[0]))] + Outputs(chunks[1..])
  }

  lemma {:induction false} OutputsRead(chunks: seq<seq<byte>>, before: seq<seq<byte>>)
    requires forall ch :: ch in chunks ==> 0 < |ch| <= MAX_PAYLOAD
    ensures ReadPty(Outputs(chunks), before) == PtyReading(before + chunks, true)
    decreases |chunks|
  {
    if chunks == [] {
      assert before + chunks == before;
    } else {
      assert chunks[0] in chunks && forall ch :: ch in chunks[1..] ==> ch in chunks;
      OutputsRead(chunks[1..], before + [chunks[0]]);
      assert (before + [chunks[0]]) + chunks[1..] == before + chunks;
    }
  }

  /** A tick with a single client. */
  lemma SoleClient(s: ServerState, t: Tick, c: ClientState)
    requires Present(s, t) == [c]
    ensures var d, s' := ClientTick(c, IO(s, t, 0)), Step(s, t);
            if d.disconnected then s'.clients == [] && s'.gone == s.gone + [d]
            else s'.clients == [d] && s'.gone == s.gone + []
  {
    hide ClientTick, IO;
    var d := ClientTick(c, IO(s, t, 0));
    assert Ticked(s, t) == [d] && [d][1..] == [] && Connected([]) == [] && Dropped([]) == [];
  }

  lemma OneRequest(p: Packet)
    requires Fits(p)
    ensures ReadSocket([Data(Encode(p))], []) == Reading([], Encode(p), Blocked)
    ensures Parse([] + Encode(p)) == Parsed([p], [], false)
  {
    hide Encode;
    assert [Data(Encode(p))][1..] == [] && [] + Encode(p) == Encode(p);
    assert Encode(p) != [];
    ParseFrame(p, []);
    assert Encode(p) + [] == Encode(p) && [p] + [] == [p];
    assert Parse([]) == Parsed([], [], false);
  }

  /** A client that attaches before there is any output, and never takes a byte. */
  function Attached(): ClientState {
    Newcomer(0, 1, [], []).(attached := true, fed := Encode(ATTACH), decoded := [ATTACH], replays := [Replay(0, true)])
  }

  lemma Attaches(io: TickIO)
    requires io.chunks == [] && io.output == [] && io.exit.None?
    ensures ClientTick(Newcomer(0, 1, [Data(Encode(ATTACH))], []), io) == Attached()
  {
    hide Encode, Parse, ReadSocket, PidPacket;
    var c := Newcomer(0, 1, [Data(Encode(ATTACH))], []);
    OneRequest(ATTACH);
    NoReplay([]);
    assert [] + Encode(ATTACH) == Encode(ATTACH);
    var d := c.(inbox := [], buf := [], fed := Encode(ATTACH));
    assert HandleAll(d, [ATTACH], [], io.dumpAt) == Handle(d, ATTACH, [], io.dumpAt) by {
      assert [ATTACH][1..] == [];
      assert HandleAll(Handle(d, ATTACH, [], io.dumpAt), [], [], io.dumpAt) == Handle(d, ATTACH, [], io.dumpAt);
    }
  }

  function FirstTick(): Tick { Quiet([Connection(true, [Data(Encode(ATTACH))], [])], []) }

  lemma FloodStart()
    ensures var s := Step(Start(1, false, 0), FirstTick());
            s.clients == [Attached()] && s.gone == [] && s.output == [] && s.readPty && s.exit.None? && !s.finished
            && s.nextId == 1 && s.pid == 1
  {
    hide ClientTick, Newcomer, Encode;
    var s0 := Start(1, false, 0);
    var c := Newcomer(0, 1, [Data(Encode(ATTACH))], []);
    var accepts := [Connection(true, [Data(Encode(ATTACH))], [])];
    assert accepts[1..] == [] && Newcomers(accepts, 0, 1) == [c] + Newcomers([], 1, 1) == [c];
    assert Present(s0, FirstTick()) == [c];
    Attaches(IO(s0, FirstTick(), 0));
    SoleClient(s0, FirstTick(), c);
    AttachedIs();
  }

  lemma AttachedIs()
    ensures var c := Attached();
            && c.attached && !c.disconnected && c.closeAt.None? && c.replays == [Replay(0, true)]
            && c.inbox == [] && c.buf == [] && c.out.writes == [] && c.out.queue == []
            && ContentOf(c.out.accepted) == []
  {
    assert [PidPacket(1)][1..] == [];
  }

  lemma FloodFits()
    ensures forall ch :: ch in Flood() ==> 0 < |ch| <= MAX_PAYLOAD
  {
    hide Copies, Zeros;
    AllCopies(4095, Full());
  }

  lemma {:induction false} AllCopies(n: nat, chunk: seq<byte>)
    ensures forall ch :: ch in Copies(n, chunk) ==> ch == chunk
  {
    if n > 0 {
      AllCopies(n - 1, chunk);
    }
  }

  /** A disconnected client that sends nothing more is left alone for the rest of the tick. */
  lemma LeftAlone(c: ClientState, io: TickIO)
    requires var b := BroadcastAll(c, io.chunks); b.disconnected && b.inbox == [] && b.buf == [] && io.exit.None?
    ensures ClientTick(c, io) == BroadcastAll(c, io.chunks)
  {
    hide BroadcastAll;
    var nothing: seq<byte> := [];
    assert Parse(nothing) == Parsed([], [], false) && nothing + nothing == nothing;
    assert BroadcastAll(c, io.chunks).fed + [] == BroadcastAll(c, io.chunks).fed;
  }

  /** The run: one client attaches before there is output and never takes a byte, and then the
      flood arrives in one tick. */
  function FloodRun(): seq<Tick> {
    [FirstTick(), FloodTick()]
  }

  function FloodTick(): Tick { Quiet([], Outputs(Flood())) }

  lemma FloodComes(s: ServerState)
    requires s.clients == [Attached()] && s.gone == [] && s.output == [] && s.readPty && s.exit.None?
    ensures var s', d := Step(s, FloodTick()), BroadcastAll(Attached(), Flood());
            s'.clients == [] && s'.gone == [d] && s'.output == Flatten(Flood())
  {
    hide ClientTick, BroadcastAll, Flatten, Attached, Flood, Connected, Dropped, NewOps;
    var t := FloodTick();
    FloodFits();
    AttachedIs();
    OutputsRead(Flood(), []);
    assert [] + Flood() == Flood();
    assert Present(s, t) == [Attached()];
    assert PtyIn(s, t).chunks == Flood();
    FloodedClient(Attached());
    LeftAlone(Attached(), IO(s, t, 0));
    SoleClient(s, t, Attached());
    assert [] + Flatten(Flood()) == Flatten(Flood());
  }

  lemma FloodEnds()
    ensures var s, d := Run(Start(1, false, 0), FloodRun()), BroadcastAll(Attached(), Flood());
            s.clients == [] && s.gone == [d] && s.output == Flatten(Flood())
  {
    hide Step, BroadcastAll, Flatten, Attached, Flood, FirstTick, FloodTick;
    var s0, ticks := Start(1, false, 0), FloodRun();
    var s1 := Step(s0, FirstTick());
    FloodStart();
    FloodComes(s1);
    assert ticks[1..] == [FloodTick()] && [FloodTick()][1..] == [];
    assert Run(s0, ticks) == Run(s1, [FloodTick()]) == Run(Step(s1, FloodTick()), []) == Step(s1, FloodTick());
  }

  /** A reachable gap: of a flood of output one chunk overflows the queue and the next one fits.
      What the client, now gone, was sent is not a prefix of what it was due. */
  lemma OverflowLeavesGap()
    ensures var s := Run(Start(1, false, 0), FloodRun());
            && Reachable(s) && |s.gone| == 1
            && var c := s.gone[0];
            && ContentOf(c.out.accepted) == Copies(4095, Full()) + [Nearly(), [2]]
            && Ordered(|s.output|, c.replays)
            && Stream(s.output, c.replays) == s.output == Flatten(Copies(4095, Full()) + [Nearly(), [1, 1], [2]])
            && !(Contents(c.out.accepted) <= Stream(s.output, c.replays))
  {
    hide Run, BroadcastAll, Attached, Copies, ContentOf, Flatten, Full, Nearly, Flood, FloodRun, Stream, Ordered;
    var s, c := Run(Start(1, false, 0), FloodRun()), BroadcastAll(Attached(), Flood());
    FloodEnds();
    FloodSent();
    OneLiveReplay(s.output, Replay(0, true));
    assert From(s.output, 0) == s.output;
    FloodCut();
    ContentsAre(c.out.accepted);
  }

  lemma FloodSent()
    ensures var c := BroadcastAll(Attached(), Flood());
            && c.replays == [Replay(0, true)]
            && ContentOf(c.out.accepted) == Copies(4095, Full()) + [Nearly(), [2]]
  {
    hide BroadcastAll, Attached, Copies, ContentOf, Full, Nearly;
    AttachedIs();
    FloodedClient(Attached());
    assert [] + Copies(4095, Full()) + [Nearly(), [2]] == Copies(4095, Full()) + [Nearly(), [2]];
  }

  lemma FloodCut()
    ensures Flood() == Copies(4095, Full()) + [Nearly(), [1, 1], [2]]
    ensures !(Flatten(Copies(4095, Full()) + [Nearly(), [2]]) <= Flatten(Flood()))
  {
    hide Copies, Full, Nearly, Flatten;
    var sent := Copies(4095, Full()) + [Nearly()];
    assert Copies(4095, Full()) + [Nearly(), [2]] == sent + [[2]] && Flood() == sent + [[1, 1], [2]];
    NotBegun(sent);
  }

  lemma ContentsAre(ps: seq<Packet>)
    ensures Contents(ps) == Flatten(ContentOf(ps))
  {
  }

  lemma NotBegun(sent: seq<seq<byte>>)
    ensures !(Flatten(sent + [[2]]) <= Flatten(sent + [[1, 1], [2]]))
  {
    FlattenAppend(sent, [[2]]);
    FlattenAppend(sent, [[1, 1], [2]]);
    FlattenTwo([1, 1], [2]);
    FlattenOne([2]);
    NotPrefix(Flatten(sent), 2, [1, 1, 2]);
  }

  lemma NotPrefix(a: seq<byte>, x: byte, b: seq<byte>)
    requires b != [] && b[0] != x
    ensures !(a + [x] <= a + b)
  {
    assert (a + [x])[|a|] == x && (a + b)[|a|] == b[0];
  }

  // -------------------------------------------------------------- the replay gap

  /** Two attach requests in one read, the first of which meets a socket error. */
  const TWICE: seq<Packet> := [ATTACH, ATTACH]

  function Impatient(): ClientState {
    Newcomer(0, 1, [Data(EncodeAll(TWICE))], [Write(0, Failed)])
  }

  /** The run: the client joins as a packetful of output and one more byte arrive. */
  function ReplayRun(): seq<Tick> {
    [Quiet([Connection(true, [Data(EncodeAll(TWICE))], [Write(0, Failed)])], Outputs([Full(), [7]]))]
  }

  lemma TwoPackets(a: seq<byte>, b: seq<byte>)
    requires |a| == MAX_PAYLOAD && 0 < |b| <= MAX_PAYLOAD
    ensures ReplayPackets(Window(a + b)) == [Packet(MSG_CONTENT, a), Packet(MSG_CONTENT, b)]
  {
    var w := a + b;
    assert Window(w) == w && w[..MAX_PAYLOAD] == a && w[MAX_PAYLOAD..] == b;
    assert Chunks(b) == [b] by { assert b[..|b|] == b && b[|b|..] == []; }
    assert Chunks(w) == [a, b];
    ToPacketsCons(MSG_CONTENT, a, [b]);
    ToPacketsCons(MSG_CONTENT, b, []);
    assert [a] + [b] == [a, b] && [b] + [] == [b];
  }

  /** The first replay: its first frame is queued and then the socket fails. */
  lemma FailedReplay(o: Outbox, p: Packet, q: Packet)
    requires o.writes == [Write(0, Failed)] && o.queue == [] && Fits(p)
    ensures var s := SendAll(o, [p, q]);
            && !s.ok && s.box.writes == [] && |s.box.queue| == |Encode(p)| && s.box.accepted == o.accepted + [p]
  {
  }

  /** The second: nothing is written, and everything fits. */
  lemma StuckReplay(o: Outbox, p: Packet, q: Packet)
    requires o.writes == [] && |o.queue| <= 5000 && Fits(p) && Fits(q)
    ensures SendAll(o, [p, q]).box.accepted == o.accepted + [p, q]
    ensures SendAll(o, [p, q]).ok
  {
    hide Send, Enqueue;
    StuckSend(o, p);
    var s := Send(o, p);
    EnqueueIs(o, p);
    StuckSend(s.box, q);
    EnqueueIs(s.box, q);
    assert [p, q][1..] == [q] && [q][1..] == [];
    assert SendAll(s.box, [q]) == SendAll(Send(s.box, q).box, []) == Sent(Send(s.box, q).box, true);
    assert (o.accepted + [p]) + [q] == o.accepted + [p, q];
  }

  lemma EnqueueIs(o: Outbox, p: Packet)
    ensures var e := Enqueue(o, p);
            && |e.queue| == |o.queue| + 8 + |p.payload| && e.accepted == o.accepted + [p] && e.writes == o.writes
  {
  }

  /** Attaching twice to a history of two packets, the first time in vain. */
  lemma AttachTwice(c: ClientState, output: seq<byte>, p: Packet, q: Packet, now: nat)
    requires c.out.writes == [Write(0, Failed)] && c.out.queue == [] && Fits(p) && Fits(q)
    requires ReplayPackets(Window(output)) == [p, q]
    ensures var d := HandleAll(c, TWICE, output, now);
            && d.disconnected && d.attached && d.buf == c.buf && d.inbox == c.inbox && d.closeAt == c.closeAt
            && d.out.accepted == c.out.accepted + [p] + [p, q]
            && d.replays == c.replays + [Replay(|output|, true), Replay(|output|, true)]
  {
    hide SendAll, ReplayPackets, Window;
    FailedReplay(c.out, p, q);
    var e := Handle(c, ATTACH, output, now);
    StuckReplay(e.out, p, q);
    var d := Handle(e, ATTACH, output, now);
    assert TWICE[1..] == [ATTACH] && [ATTACH][1..] == [];
    assert HandleAll(e, [ATTACH], output, now) == HandleAll(d, [], output, now) == d;
    assert (c.replays + [Replay(|output|, true)]) + [Replay(|output|, true)]
        == c.replays + [Replay(|output|, true), Replay(|output|, true)];
  }

  lemma {:induction false} BroadcastToNewcomer(c: ClientState, io: TickIO)
    requires !c.attached
    ensures Served(c, io) == ReadPackets(c, io.output, io.dumpAt)
  {
    BroadcastToNone(c, io.chunks);
  }

  /** The impatient client's one tick. */
  lemma ImpatientTick(io: TickIO, a: seq<byte>, b: seq<byte>)
    requires |a| == MAX_PAYLOAD && 0 < |b| <= MAX_PAYLOAD && io.output == a + b && io.exit.None?
    ensures var d := ClientTick(Impatient(), io);
            && d.disconnected && ContentOf(d.out.accepted) == [a, a, b]
            && d.replays == [Replay(|a + b|, true), Replay(|a + b|, true)]
  {
    hide HandleAll, Encode, Parse, ReplayPackets, Window, Served;
    var c := Impatient();
    var p, q := Packet(MSG_CONTENT, a), Packet(MSG_CONTENT, b);
    var bytes := EncodeAll(TWICE);
    assert bytes != [] by { assert EncodeAll(TWICE) == Encode(ATTACH) + EncodeAll(TWICE[1..]); }
    assert [Data(bytes)][1..] == [] && [] + bytes == bytes;
    assert ReadSocket(c.inbox, []) == Reading([], bytes, Blocked);
    ParseEncoded(TWICE);
    TwoPackets(a, b);
    var d := c.(inbox := [], buf := [], fed := bytes);
    AttachTwice(d, io.output, p, q, io.dumpAt);
    BroadcastToNewcomer(c, io);
    assert Served(c, io) == HandleAll(d, TWICE, io.output, io.dumpAt);
    ContentThree(PidPacket(1), p, q);
  }

  lemma ContentThree(pid: Packet, p: Packet, q: Packet)
    requires pid.typ != MSG_CONTENT && p.typ == q.typ == MSG_CONTENT
    ensures ContentOf([pid] + [p] + [p, q]) == [p.payload, p.payload, q.payload]
  {
    PayloadsAppend([pid] + [p], [p, q], MSG_CONTENT);
    PayloadsAppend([pid], [p], MSG_CONTENT);
    assert [pid][1..] == [] && [p][1..] == [] && [p, q][1..] == [q] && [q][1..] == [];
  }

  function ReplayTick(): Tick { ReplayRun()[0] }

  lemma ReplayComes(s: ServerState)
    requires s == Start(1, false, 0)
    ensures var t := ReplayTick();
            && Present(s, t) == [Impatient()] && OutputAfter(s, t) == Full() + [7] && ExitAfter(s.exit, t).None?
  {
    hide Encode, EncodeAll, Zeros, Newcomer;
    var t, chunks := ReplayTick(), [Full(), [7]];
    OutputsRead(chunks, []);
    assert [] + chunks == chunks;
    assert t.accepts[1..] == [] && Newcomers(t.accepts, 0, 1) == [Impatient()] + Newcomers([], 1, 1) == [Impatient()];
    FlattenTwo(Full(), [7]);
    assert [] + (Full() + [7]) == Full() + [7];
  }

  lemma ReplayEnds()
    ensures var s := Run(Start(1, false, 0), ReplayRun());
            && s.output == Full() + [7] && |s.gone| == 1
            && ContentOf(s.gone[0].out.accepted) == [Full(), Full(), [7]]
            && s.gone[0].replays == [Replay(MAX_PAYLOAD + 1, true), Replay(MAX_PAYLOAD + 1, true)]
  {
    hide ClientTick, Step, Present, OutputAfter, PtyIn, ExitAfter, ReplayTick, Impatient, Zeros, ContentOf;
    var s, t := Start(1, false, 0), ReplayTick();
    ReplayComes(s);
    ImpatientTick(IO(s, t, 0), Full(), [7]);
    SoleClient(s, t, Impatient());
    OutputGrows(s, t);
    OneTick(s);
  }

  lemma OneTick(s: ServerState)
    requires !s.finished
    ensures Run(s, ReplayRun()) == Step(s, ReplayTick())
  {
    hide Step;
    assert ReplayRun()[1..] == [] && Run(Step(s, ReplayTick()), []) == Step(s, ReplayTick());
  }

  /** A reachable gap without any overflow: a replay is cut short by a socket error and the next
      request of the same read starts another. */
  lemma ReplayLeavesGap()
    ensures var s := Run(Start(1, false, 0), ReplayRun());
            && Reachable(s) && |s.gone| == 1
            && var c, w := s.gone[0], Full() + [7];
            && Contents(c.out.accepted) == Full() + w
            && Ordered(|s.output|, c.replays)
            && Stream(s.output, c.replays) == w + w
            && !(Contents(c.out.accepted) <= Stream(s.output, c.replays))
  {
    hide Run, ContentOf, ReplayRun, Zeros;
    ReplayEnds();
    var s := Run(Start(1, false, 0), ReplayRun());
    var w := Full() + [7];
    ContentsAre(s.gone[0].out.accepted);
    FlattenThree(Full(), Full(), [7]);
    TwoReplays(w);
    assert (Full() + w)[MAX_PAYLOAD] == 0 && (w + w)[MAX_PAYLOAD] == 7 by { FirstZero(MAX_PAYLOAD); }
  }

  lemma FlattenThree(a: seq<byte>, b: seq<byte>, c: seq<byte>)
    ensures Flatten([a, b, c]) == a + (b + c)
  {
    assert [a, b, c][1..] == [b, c];
    FlattenTwo(b, c);
  }

  lemma FirstZero(n: nat)
    requires n > 0
    ensures Zeros(n)[0] == 0
  {
  }

  lemma TwoReplays(w: seq<byte>)
    requires |w| <= HISTORY_CAP
    ensures var r := Replay(|w|, true);
            Ordered(|w|, [r, r]) && Stream(w, [r, r]) == w + w
  {
    hide Window;
    var r := Replay(|w|, true);
    StreamReplays(w, [], true);
    StreamReplays(w, [r], true);
    assert [] + [r] == [r] && [r] + [r] == [r, r];
    assert Stream(w, []) == [] && [] + Window(w) == Window(w);
    WindowWhole(w);
  }

  lemma WindowWhole(w: seq<byte>)
    requires |w| <= HISTORY_CAP
    ensures Window(w) == w
  {
  }
}
