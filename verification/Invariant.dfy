/** What every step keeps of every client, and every tick of every run. */
module Invariant {
  import opened Protocol
  import opened Codec
  import opened Sending
  import opened Session

  // ---------------------------------------------- what a client's packets ask for

  function Init<T>(s: seq<T>): seq<T> requires s != [] { s[..|s| - 1] }

  function Last<T>(s: seq<T>): T requires s != [] { s[|s| - 1] }

  /** The flags of the last MSG_ATTACH; none to start with. */
  function FlagsAfter(ps: seq<Packet>): u32 {
    if ps == [] then 0
    else if Last(ps).typ == MSG_ATTACH then
      if ReadU32(Last(ps).payload).Some? then ReadU32(Last(ps).payload).value else 0
    else FlagsAfter(Init(ps))
  }

  /** The terminal operations a client's packets ask for, each under the flags in force when
      the packet is processed. */
  function OpsOf(ps: seq<Packet>): seq<PtyOp> {
    if ps == [] then [] else OpsOf(Init(ps)) + OpOf(FlagsAfter(Init(ps)), Last(ps))
  }

  predicate Asks(p: Packet) { p.typ == MSG_ATTACH || p.typ == MSG_DUMP }

  function ReplaysAsked(ps: seq<Packet>): nat {
    if ps == [] then 0 else ReplaysAsked(Init(ps)) + if Asks(Last(ps)) then 1 else 0
  }

  predicate AsksAttach(ps: seq<Packet>) {
    ps != [] && (Last(ps).typ == MSG_ATTACH || AsksAttach(Init(ps)))
  }

  // -------------------------------------------------- what a client is to be sent

  predicate LiveNow(log: seq<Replay>) { log != [] && Last(log).live }

  ghost predicate Ordered(n: nat, log: seq<Replay>) {
    log == [] || (Last(log).at <= n && Ordered(Last(log).at, Init(log)))
  }

  /** The terminal output due to a client: for each replay the history as of then and, if the
      client was attached, the output from then until the next replay or until now. */
  ghost function Stream(p: seq<byte>, log: seq<Replay>): seq<byte>
    requires Ordered(|p|, log)
    decreases |log|
  {
    if log == [] then []
    else
      var r := Last(log);
      Stream(p[..r.at], Init(log)) + Window(p[..r.at]) + if r.live then p[r.at..] else []
  }

  lemma StreamGrows(p: seq<byte>, d: seq<byte>, log: seq<Replay>)
    requires Ordered(|p|, log)
    ensures Ordered(|p + d|, log)
    ensures Stream(p + d, log) == Stream(p, log) + if LiveNow(log) then d else []
  {
    if log != [] {
      var r := Last(log);
      assert (p + d)[..r.at] == p[..r.at] && (p + d)[r.at..] == p[r.at..] + d;
    }
  }

  lemma StreamReplays(p: seq<byte>, log: seq<Replay>, live: bool)
    requires Ordered(|p|, log)
    ensures var log' := log + [Replay(|p|, live)];
            Ordered(|p|, log') && Stream(p, log') == Stream(p, log) + Window(p)
  {
    var log' := log + [Replay(|p|, live)];
    assert Init(log') == log && p[..|p|] == p;
  }

  // -------------------------------------------------------------- the invariant

  ghost predicate FrameInv(c: ClientState, pid: nat) {
    && Framed(c.out)
    && [PidPacket(pid)] <= c.out.accepted
  }

  ghost predicate InputInv(c: ClientState) {
    && c.attached == AsksAttach(c.decoded)
    && c.flags == FlagsAfter(c.decoded)
    && c.ops == OpsOf(c.decoded)
    && |c.replays| == ReplaysAsked(c.decoded)
  }

  /** The packets processed are the parse of the bytes received, up to a header out of range. */
  ghost predicate DecodeInv(c: ClientState) {
    var r := Parse(c.fed);
    r.packets <= c.decoded && (!r.oversized ==> c.decoded == r.packets)
  }

  /** What stays in the receive buffer between ticks. */
  ghost predicate BufInv(c: ClientState) {
    Incomplete(c.buf) && (!Parse(c.fed).oversized ==> c.buf == Parse(c.fed).rest)
  }

  /** Nothing due to a connected client is missing, repeated or out of order. */
  ghost predicate SeamInv(c: ClientState, output: seq<byte>) {
    && Ordered(|output|, c.replays)
    && c.attached == LiveNow(c.replays)
    && (!c.disconnected ==> Contents(c.out.accepted) == Stream(output, c.replays))
  }

  /** A client that never attaches: before its dump it is owed nothing (and all it was ever
      sent is small); after one dump it has heard, or will hear, that history and no other,
      unless its socket fails. */
  ghost predicate DumpInv(c: ClientState, output: seq<byte>) {
    !c.attached ==>
      && (c.replays == [] ==>
            && Contents(c.out.accepted) == []
            && DumpOut(c.out.accepted).None?
            && |EncodeAll(c.out.accepted)| <= if c.closeAt.None? then 16 else 28)
      && (|c.replays| == 1 ==>
            && c.closeAt.Some?
            && c.replays[0].at <= |output|
            && (DumpOut(c.out.accepted).Some? ==>
                  DumpOut(c.out.accepted).value == Window(output[..c.replays[0].at]))
            && (DumpOut(c.out.accepted).Some? || c.out.failed))
  }

  function ExitPayloads(c: ClientState): seq<seq<byte>> { Payloads(c.out.accepted, MSG_EXIT) }

  ghost predicate ExitInv(c: ClientState, exit: Option<i32>) {
    ExitPayloads(c) != [] ==>
      c.closeAt.Some? && exit.Some? && ExitPayloads(c) == [ExitPacket(exit.value).payload]
  }

  /** All but the parse, which holds between runs of the packet loop. */
  ghost predicate StepInv(c: ClientState, pid: nat, output: seq<byte>, exit: Option<i32>) {
    FrameInv(c, pid) && InputInv(c) && SeamInv(c, output) && DumpInv(c, output) && ExitInv(c, exit)
  }

  ghost predicate ClientInv(c: ClientState, pid: nat, output: seq<byte>, exit: Option<i32>) {
    StepInv(c, pid, output, exit) && DecodeInv(c) && (!c.disconnected ==> BufInv(c))
  }

  /** What happens to a client never undoes what happened; a time to close, once set, stays,
      and with it the MSG_EXIT packets sent. */
  ghost predicate Continues(c: ClientState, d: ClientState) {
    && d.id == c.id
    && Grows(c.out, d.out)
    && c.fed <= d.fed && c.decoded <= d.decoded && c.replays <= d.replays && c.ops <= d.ops
    && (c.disconnected ==> d.disconnected)
    && (c.closeAt.Some? ==> d.closeAt == c.closeAt && ExitPayloads(d) == ExitPayloads(c))
  }

  lemma ContinuesTrans(a: ClientState, b: ClientState, c: ClientState)
    requires Continues(a, b) && Continues(b, c)
    ensures Continues(a, c)
  {
  }

  // ------------------------------------------------------------------ each step

  lemma BroadcastKeeps(c: ClientState, pid: nat, output: seq<byte>, bytes: seq<byte>, exit: Option<i32>)
    requires StepInv(c, pid, output, exit) && |bytes| <= MAX_PAYLOAD
    ensures var d := Broadcast(c, bytes);
            StepInv(d, pid, output + bytes, exit) && Continues(c, d)
  {
    hide Send, Encode;
    var p := Packet(MSG_CONTENT, bytes);
    SendKeeps(c.out, p);
    AddPacket(c.out.accepted, p);
    StreamGrows(output, bytes, c.replays);
    if |c.replays| == 1 {
      assert (output + bytes)[..c.replays[0].at] == output[..c.replays[0].at];
    }
  }

  lemma FlattenLast(output: seq<byte>, chunks: seq<seq<byte>>)
    requires chunks != []
    ensures output + Flatten(chunks) == (output + Flatten(Init(chunks))) + Last(chunks)
  {
    FlattenAppend(Init(chunks), [Last(chunks)]);
    FlattenOne(Last(chunks));
    assert Init(chunks) + [Last(chunks)] == chunks;
  }

  lemma {:induction false} BroadcastAllKeeps(c: ClientState, pid: nat, output: seq<byte>, chunks: seq<seq<byte>>,
                                             exit: Option<i32>)
    requires StepInv(c, pid, output, exit)
    requires forall b :: b in chunks ==> |b| <= MAX_PAYLOAD
    ensures var d := BroadcastAll(c, chunks);
            StepInv(d, pid, output + Flatten(chunks), exit) && Continues(c, d)
    decreases |chunks|
  {
    if chunks == [] {
      assert output + Flatten(chunks) == output;
    } else {
      var before, b := Init(chunks), Last(chunks);
      BroadcastAllKeeps(c, pid, output, before, exit);
      BroadcastKeeps(BroadcastAll(c, before), pid, output + Flatten(before), b, exit);
      FlattenLast(output, chunks);
      ContinuesTrans(c, BroadcastAll(c, before), BroadcastAll(c, chunks));
    }
  }

  /** Processing one more packet, as far as the records of what was asked go. */
  lemma AskedAppend(ps: seq<Packet>, p: Packet)
    ensures FlagsAfter(ps + [p]) ==
            (if p.typ == MSG_ATTACH then if ReadU32(p.payload).Some? then ReadU32(p.payload).value else 0
             else FlagsAfter(ps))
    ensures OpsOf(ps + [p]) == OpsOf(ps) + OpOf(FlagsAfter(ps), p)
    ensures ReplaysAsked(ps + [p]) == ReplaysAsked(ps) + if Asks(p) then 1 else 0
    ensures AsksAttach(ps + [p]) <==> p.typ == MSG_ATTACH || AsksAttach(ps)
  {
  }

  /** A replay and the record of it. `c` already counts as attached if the replay is live. */
  lemma ReplayKeepsSeam(c: ClientState, pid: nat, output: seq<byte>, sendEnd: bool)
    requires FrameInv(c, pid) && Ordered(|output|, c.replays)
    requires LiveNow(c.replays) ==> c.attached
    requires !c.disconnected ==> Contents(c.out.accepted) == Stream(output, c.replays)
    ensures var d := ReplayTo(c, output, sendEnd);
            && FrameInv(d, pid) && SeamInv(d, output)
            && ExitPayloads(d) == ExitPayloads(c)
            && Grows(c.out, d.out)
  {
    SendHistoryKeeps(c.out, Window(output), sendEnd);
    AddReplay(c.out, Window(output), sendEnd);
    StreamReplays(output, c.replays, c.attached);
  }

  lemma AttachKeeps(c: ClientState, p: Packet, pid: nat, output: seq<byte>, exit: Option<i32>, now: nat)
    requires StepInv(c, pid, output, exit) && p.typ == MSG_ATTACH
    ensures var d := Handle(c, p, output, now);
            StepInv(d, pid, output, exit) && Continues(c, d)
  {
    AskedAppend(c.decoded, p);
    var flags := if ReadU32(p.payload).Some? then ReadU32(p.payload).value else 0;
    var e := c.(decoded := c.decoded + [p], ops := c.ops + OpOf(c.flags, p), attached := true, flags := flags);
    ReplayKeepsSeam(e, pid, output, false);
  }

  lemma DumpKeeps(c: ClientState, p: Packet, pid: nat, output: seq<byte>, exit: Option<i32>, now: nat)
    requires StepInv(c, pid, output, exit) && p.typ == MSG_DUMP
    ensures var d := Handle(c, p, output, now);
            StepInv(d, pid, output, exit) && Continues(c, d)
  {
    AskedAppend(c.decoded, p);
    var e := c.(decoded := c.decoded + [p], ops := c.ops + OpOf(c.flags, p));
    ReplayKeepsSeam(e, pid, output, true);
    DumpKeepsDump(c, p, pid, output, now);
  }

  lemma DumpKeepsDump(c: ClientState, p: Packet, pid: nat, output: seq<byte>, now: nat)
    requires FrameInv(c, pid) && DumpInv(c, output) && p.typ == MSG_DUMP
    ensures DumpInv(Handle(c, p, output, now), output)
  {
    if !c.attached && c.replays == [] {
      FirstDump(c, pid, output);
      assert output[..|output|] == output;
    }
  }

  /** The dump of a client that has been sent nothing yet. */
  lemma FirstDump(c: ClientState, pid: nat, output: seq<byte>)
    requires FrameInv(c, pid) && DumpInv(c, output) && !c.attached && c.replays == []
    ensures var box := SendHistory(c.out, Window(output), true).box;
            && (DumpOut(box.accepted).Some? ==> DumpOut(box.accepted).value == Window(output))
            && (DumpOut(box.accepted).Some? || box.failed)
  {
    var w := Window(output);
    var box := SendHistory(c.out, w, true).box;
    assert |c.out.wire + c.out.queue| <= 28;
    AddReplay(c.out, w, true);
    ReplayFits(c.out, w);
    if !box.failed {
      AddPacket(c.out.accepted + ReplayPackets(w), DUMP_END_PACKET);
      DumpOutAppend(c.out.accepted, ReplayPackets(w));
      ReplayPacketsMake(w);
      OtherPayloads(MSG_CONTENT, Chunks(w), MSG_DUMP_END);
      NoEnd(ReplayPackets(w));
    }
  }

  lemma PlainIs(c: ClientState, p: Packet, output: seq<byte>, now: nat)
    requires !Asks(p)
    ensures Handle(c, p, output, now) ==
            c.(decoded := c.decoded + [p], ops := c.ops + OpOf(c.flags, p),
               disconnected := c.disconnected || p.typ == MSG_DETACH || p.typ == MSG_EXIT)
  {
  }

  lemma PlainKeeps(c: ClientState, p: Packet, pid: nat, output: seq<byte>, exit: Option<i32>, now: nat)
    requires StepInv(c, pid, output, exit) && !Asks(p)
    ensures var d := Handle(c, p, output, now);
            StepInv(d, pid, output, exit) && Continues(c, d)
  {
    hide Handle;
    PlainIs(c, p, output, now);
    AskedAppend(c.decoded, p);
  }

  lemma HandleKeeps(c: ClientState, p: Packet, pid: nat, output: seq<byte>, exit: Option<i32>, now: nat)
    requires StepInv(c, pid, output, exit)
    ensures var d := Handle(c, p, output, now);
            StepInv(d, pid, output, exit) && Continues(c, d)
  {
    hide StepInv, Continues, Handle;
    if p.typ == MSG_ATTACH {
      AttachKeeps(c, p, pid, output, exit, now);
    } else if p.typ == MSG_DUMP {
      DumpKeeps(c, p, pid, output, exit, now);
    } else {
      PlainKeeps(c, p, pid, output, exit, now);
    }
  }

  lemma {:induction false} HandleAllKeeps(c: ClientState, ps: seq<Packet>, pid: nat, output: seq<byte>,
                                          exit: Option<i32>, now: nat)
    requires StepInv(c, pid, output, exit)
    ensures var d := HandleAll(c, ps, output, now);
            StepInv(d, pid, output, exit) && Continues(c, d)
    decreases |ps|
  {
    hide StepInv, Handle;
    if ps != [] {
      var e := Handle(c, ps[0], output, now);
      HandleKeeps(c, ps[0], pid, output, exit, now);
      HandleAllKeeps(e, ps[1..], pid, output, exit, now);
      ContinuesTrans(c, e, HandleAll(e, ps[1..], output, now));
    }
  }

  /** The packet loop processes every packet parsed, in order, and leaves the buffer alone. */
  lemma {:induction false} HandleAllDecodes(c: ClientState, ps: seq<Packet>, output: seq<byte>, now: nat)
    ensures var d := HandleAll(c, ps, output, now);
            d.decoded == c.decoded + ps && d.buf == c.buf && d.fed == c.fed
    decreases |ps|
  {
    hide Handle;
    if ps != [] {
      HandleDecodes(c, ps[0], output, now);
      HandleAllDecodes(Handle(c, ps[0], output, now), ps[1..], output, now);
    }
  }

  lemma HandleDecodes(c: ClientState, p: Packet, output: seq<byte>, now: nat)
    ensures var d := Handle(c, p, output, now);
            d.decoded == c.decoded + [p] && d.buf == c.buf && d.fed == c.fed
  {
    hide SendHistory, Window, OpOf, ReadU32;
  }

  lemma ReceiveKeeps(c: ClientState, inbox: seq<ReadResult>, buf: seq<byte>, more: seq<byte>,
                     pid: nat, output: seq<byte>, exit: Option<i32>)
    requires StepInv(c, pid, output, exit)
    ensures var d := c.(inbox := inbox, buf := buf, fed := c.fed + more);
            StepInv(d, pid, output, exit) && Continues(c, d)
  {
  }

  lemma DisconnectKeeps(c: ClientState, inbox: seq<ReadResult>, buf: seq<byte>,
                        pid: nat, output: seq<byte>, exit: Option<i32>)
    requires StepInv(c, pid, output, exit)
    ensures var d := c.(inbox := inbox, buf := buf, disconnected := true);
            StepInv(d, pid, output, exit) && Continues(c, d)
  {
  }

  lemma ReadPacketsKeeps(c: ClientState, pid: nat, output: seq<byte>, exit: Option<i32>, now: nat)
    requires StepInv(c, pid, output, exit)
    ensures var d := ReadPackets(c, output, now);
            StepInv(d, pid, output, exit) && Continues(c, d)
  {
    hide StepInv, Continues, Parse, HandleAll, ReadSocket;
    var r := ReadSocket(c.inbox, []);
    if r.ending.Failure? {
      DisconnectKeeps(c, r.inbox, c.buf + r.bytes, pid, output, exit);
    } else {
      var parsed := Parse(c.buf + r.bytes);
      var d := c.(inbox := r.inbox, buf := Leftover(parsed), fed := c.fed + r.bytes);
      var e := HandleAll(d, parsed.packets, output, now);
      ReceiveKeeps(c, r.inbox, d.buf, r.bytes, pid, output, exit);
      HandleAllKeeps(d, parsed.packets, pid, output, exit, now);
      ContinuesTrans(c, d, e);
      DisconnectKeeps(e, e.inbox, e.buf, pid, output, exit);
      ContinuesTrans(c, e, e.(disconnected := true));
    }
  }

  lemma ReadPacketsParses(c: ClientState, output: seq<byte>, now: nat)
    requires DecodeInv(c) && BufInv(c)
    ensures var d := ReadPackets(c, output, now);
            DecodeInv(d) && (d.disconnected || BufInv(d))
  {
    var r := ReadSocket(c.inbox, []);
    if !r.ending.Failure? {
      var s := c.buf + r.bytes;
      var d := c.(inbox := r.inbox, buf := Leftover(Parse(s)), fed := c.fed + r.bytes);
      HandleAllDecodes(d, Parse(s).packets, output, now);
      ParseAppend(c.fed, r.bytes);
      LeftoverIncomplete(s);
    }
  }

  lemma ScheduleExitKeeps(c: ClientState, pid: nat, output: seq<byte>, status: i32, now: nat)
    requires StepInv(c, pid, output, Some(status))
    ensures var d := ScheduleExit(c, status, now);
            StepInv(d, pid, output, Some(status)) && Continues(c, d)
  {
    hide Send, Encode, EncodeAll, Payloads, Contents, DumpOut, Stream;
    if !c.disconnected && c.closeAt.None? {
      var p := ExitPacket(status);
      SendKeeps(c.out, p);
      AddPacket(c.out.accepted, p);
    }
  }

  lemma FlushStepKeeps(c: ClientState, pid: nat, output: seq<byte>, exit: Option<i32>)
    requires StepInv(c, pid, output, exit)
    ensures var d := FlushStep(c);
            StepInv(d, pid, output, exit) && Continues(c, d)
  {
    FlushKeeps(c.out);
    FlushMoves(c.out);
  }

  // --------------------------------------------------------------------- a tick

  /** The status a tick ends with is the one it began with, unless there was none. */
  predicate ExitGrows(before: Option<i32>, after: Option<i32>) { before.Some? ==> after == before }

  lemma {:induction false} BroadcastAllLeaves(c: ClientState, chunks: seq<seq<byte>>)
    ensures var d := BroadcastAll(c, chunks);
            d == c.(out := d.out, disconnected := d.disconnected)
    decreases |chunks|
  {
    if chunks != [] {
      BroadcastAllLeaves(c, Init(chunks));
    }
  }

  lemma ServedKeeps(c: ClientState, io: TickIO, pid: nat, output: seq<byte>, exit: Option<i32>)
    requires ClientInv(c, pid, output, exit) && !c.disconnected
    requires forall b :: b in io.chunks ==> |b| <= MAX_PAYLOAD
    requires io.output == output + Flatten(io.chunks)
    ensures var d := Served(c, io);
            ClientInv(d, pid, io.output, exit) && Continues(c, d)
  {
    var c1 := BroadcastAll(c, io.chunks);
    BroadcastAllKeeps(c, pid, output, io.chunks, exit);
    BroadcastAllLeaves(c, io.chunks);
    ReadPacketsParses(c1, io.output, io.dumpAt);
    ReadPacketsKeeps(c1, pid, io.output, exit, io.dumpAt);
    ContinuesTrans(c, c1, ReadPackets(c1, io.output, io.dumpAt));
  }

  lemma ExitStepKeeps(c: ClientState, io: TickIO, pid: nat, exit: Option<i32>)
    requires ClientInv(c, pid, io.output, exit) && ExitGrows(exit, io.exit)
    ensures var d := ExitStep(c, io);
            ClientInv(d, pid, io.output, io.exit) && Continues(c, d)
  {
    if io.exit.Some? {
      ScheduleExitKeeps(c, pid, io.output, io.exit.value, io.exitAt);
    }
  }

  lemma CloseStepKeeps(c: ClientState, pid: nat, output: seq<byte>, exit: Option<i32>, now: nat)
    requires ClientInv(c, pid, output, exit)
    ensures var d := CloseStep(FlushStep(c), now);
            ClientInv(d, pid, output, exit) && Continues(c, d)
  {
    FlushStepKeeps(c, pid, output, exit);
  }

  lemma ClientTickKeeps(c: ClientState, io: TickIO, pid: nat, output: seq<byte>, exit: Option<i32>)
    requires ClientInv(c, pid, output, exit) && !c.disconnected
    requires forall b :: b in io.chunks ==> |b| <= MAX_PAYLOAD
    requires io.output == output + Flatten(io.chunks) && ExitGrows(exit, io.exit)
    ensures var d := ClientTick(c, io);
            ClientInv(d, pid, io.output, io.exit) && Continues(c, d)
  {
    hide ClientInv, Continues, Served, ExitStep, CloseStep, FlushStep;
    var c2 := Served(c, io);
    var c3 := ExitStep(c2, io);
    ServedKeeps(c, io, pid, output, exit);
    ExitStepKeeps(c2, io, pid, exit);
    CloseStepKeeps(c3, pid, io.output, io.exit, io.now);
    ContinuesTrans(c, c2, c3);
    ContinuesTrans(c, c3, ClientTick(c, io));
  }
}
