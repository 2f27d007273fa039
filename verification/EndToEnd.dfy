/** From the terminal to a dump's output, and from the command line to the terminal. */
module EndToEnd {
  import opened Protocol
  import opened Codec
  import opened Sending
  import opened Session
  import opened Invariant
  import opened Runs
  import opened Theorems
  import opened Tail
  import opened Keys
  import B = Buffer

  // ------------------------------------------------------------------------ dump

  /** What `-N bytes` and `-L lines` leave of a dump; zero means everything. */
  function Shown(out: seq<byte>, maxBytes: nat, maxLines: nat): seq<byte> {
    var tail := if maxBytes == 0 then out else LastN(out, maxBytes);
    if maxLines == 0 then tail else LastLines(tail, maxLines)
  }

  /** What a dump client makes of the bytes it receives: one packet for the process id, then
      the packets up to the end of the dump. */
  function Heard(s: seq<byte>): Option<seq<byte>> {
    var ps := Parse(s).packets;
    if ps == [] then None else DumpOut(ps[1..])
  }

  /** The receiving half of `dump_session`: what it prints, or nothing when it fails. */
  method DumpSession(stream: BlockingStream, maxBytes: nat, maxLines: nat) returns (shown: Option<seq<byte>>)
    modifies stream
    ensures var heard := Heard(old(Flatten(stream.pieces)));
            shown == if heard.None? then None else Some(Shown(heard.value, maxBytes, maxLines))
  {
    hide Recv, Shown;
    var pid := stream.RecvPacket();
    if !pid.Got? {
      return None;
    }
    var out := Gather(stream);
    if out.None? {
      return None;
    }
    var start := ShownFrom(out.value, maxBytes, maxLines);
    return Some(out.value[start..]);
  }

  /** Where the part to print begins, as both clients compute it. */
  method ShownFrom(out: seq<byte>, maxBytes: nat, maxLines: nat) returns (start: nat)
    ensures start <= |out| && out[start..] == Shown(out, maxBytes, maxLines)
    ensures maxBytes == 0 && maxLines == 0 ==> start == 0
  {
    hide LastLines;
    start := 0;
    if maxBytes != 0 && maxBytes < |out| {
      start := |out| - maxBytes;
    }
    if maxLines != 0 {
      var line := TailLineStart(out[start..], maxLines);
      assert out[start..][line..] == out[start + line..];
      start := start + line;
    }
  }

  /** Its receive loop. */
  method Gather(stream: BlockingStream) returns (out: Option<seq<byte>>)
    modifies stream
    ensures out == DumpOut(Parse(old(Flatten(stream.pieces))).packets)
  {
    hide Recv;
    ghost var goal := DumpOut(Parse(Flatten(stream.pieces)).packets);
    var gathered: seq<byte> := [];
    assert goal.Some? ==> [] + goal.value == goal.value;
    while true
      invariant goal == GatherFrom(gathered, Parse(Flatten(stream.pieces)).packets)
      decreases |Flatten(stream.pieces)|
    {
      var r := stream.RecvPacket();
      if !r.Got? {
        return None;
      }
      GatherStep(gathered, r.pkt, Parse(r.rest).packets);
      if r.pkt.typ == MSG_DUMP_END {
        return Some(gathered);
      }
      if r.pkt.typ == MSG_CONTENT {
        gathered := gathered + r.pkt.payload;
      }
    }
  }

  /** The dump, given what has been gathered of it. */
  function GatherFrom(gathered: seq<byte>, ps: seq<Packet>): Option<seq<byte>> {
    var more := DumpOut(ps);
    if more.None? then None else Some(gathered + more.value)
  }

  lemma GatherStep(gathered: seq<byte>, p: Packet, more: seq<Packet>)
    ensures p.typ == MSG_DUMP_END ==> GatherFrom(gathered, [p] + more) == Some(gathered)
    ensures p.typ == MSG_CONTENT ==> GatherFrom(gathered, [p] + more) == GatherFrom(gathered + p.payload, more)
    ensures p.typ != MSG_DUMP_END && p.typ != MSG_CONTENT ==>
              GatherFrom(gathered, [p] + more) == GatherFrom(gathered, more)
  {
    assert ([p] + more)[1..] == more && gathered + [] == gathered;
    assert DumpOut(more).Some? ==> [] + DumpOut(more).value == DumpOut(more).value;
    if p.typ == MSG_CONTENT && DumpOut(more).Some? {
      assert gathered + (p.payload + DumpOut(more).value) == (gathered + p.payload) + DumpOut(more).value;
    }
  }

  /** There is memory for every packet of content a stream holds. */
  ghost predicate MemoryFor(memory: nat -> bool, s: seq<byte>) {
    |s| <= B.LARGEST && forall n: nat :: n < |Payloads(Parse(s).packets, MSG_CONTENT)| ==> memory(n)
  }

  lemma LessMemory(memory: nat -> bool, s: seq<byte>, p: Packet, rest: seq<byte>)
    requires Recv(s) == Got(p, rest) && p.typ != MSG_CONTENT
    ensures MemoryFor(memory, s) ==> MemoryFor(memory, rest)
    ensures Parse(s).packets == [p] + Parse(rest).packets
  {
  }

  /** `dump_session` in C, gathering in its doubling buffer. It insists that the first packet
      be MSG_PID. `memory` is whether `realloc` finds memory for the n-th packet of content.
      Whatever it prints is what the Rust client prints, wherever memory runs out, and it prints
      whenever that one does and there is memory for every packet. */
  method CDumpSession(stream: BlockingStream, maxBytes: nat, maxLines: nat, memory: nat -> bool)
    returns (shown: Option<seq<byte>>)
    modifies stream
    ensures var s := old(Flatten(stream.pieces));
            && (shown.Some? ==> Heard(s).Some? && shown.value == Shown(Heard(s).value, maxBytes, maxLines))
            && (Heard(s).Some? && Parse(s).packets[0].typ == MSG_PID && MemoryFor(memory, s) ==> shown.Some?)
  {
    hide Recv, Shown, MemoryFor, DumpOut, Flatten;
    ghost var s := Flatten(stream.pieces);
    var pid := stream.RecvPacket();
    if !pid.Got? || pid.pkt.typ != MSG_PID {
      return None;
    }
    LessMemory(memory, s, pid.pkt, pid.rest);
    var b := new B.GrowingBuffer();
    var ok := CGather(stream, b, memory);
    if !ok {
      return None;
    }
    var out := b.buf[..b.len];
    var start := ShownFrom(out, maxBytes, maxLines);
    return Some(out[start..]);
  }

  /** Its receive loop. */
  method CGather(stream: BlockingStream, b: B.GrowingBuffer, memory: nat -> bool) returns (ok: bool)
    requires b.Valid() && b.Contents() == []
    modifies stream, b, b.buf
    ensures b.Valid()
    ensures var goal := DumpOut(Parse(old(Flatten(stream.pieces))).packets);
            && (ok ==> goal == Some(b.Contents()))
            && (goal.Some? && MemoryFor(memory, old(Flatten(stream.pieces))) ==> ok)
  {
    hide Recv;
    ghost var total := |Flatten(stream.pieces)|;
    ghost var goal := DumpOut(Parse(Flatten(stream.pieces)).packets);
    ghost var contents := |Payloads(Parse(Flatten(stream.pieces)).packets, MSG_CONTENT)|;
    assert goal.Some? ==> [] + goal.value == goal.value;
    var n: nat := 0;
    while true
      invariant n + |Payloads(Parse(Flatten(stream.pieces)).packets, MSG_CONTENT)| == contents
      invariant b.Valid() && (b.buf == old(b.buf) || fresh(b.buf))
      invariant goal == GatherFrom(b.Contents(), Parse(Flatten(stream.pieces)).packets)
      invariant b.len + |Flatten(stream.pieces)| <= total
      decreases |Flatten(stream.pieces)|
    {
      var r := stream.RecvPacket();
      if !r.Got? {
        return false;
      }
      GatherStep(b.Contents(), r.pkt, Parse(r.rest).packets);
      assert ([r.pkt] + Parse(r.rest).packets)[1..] == Parse(r.rest).packets;
      if r.pkt.typ == MSG_CONTENT {
        CapInRange(b);
        var appended := b.Append(r.pkt.payload, memory(n));
        if !appended {
          return false;
        }
        n := n + 1;
      } else if r.pkt.typ == MSG_DUMP_END {
        return true;
      }
    }
  }

  lemma CapInRange(b: B.GrowingBuffer)
    requires b.Valid()
    ensures b.cap <= B.SIZE_MAX
  {
    B.MayDouble(b.doublings);
  }

  /** The first packet is not part of the dump, whatever it is. */
  lemma FirstPacketAside(p: Packet, rest: seq<byte>)
    requires Fits(p)
    ensures Heard(Encode(p) + rest) == DumpOut(Parse(rest).packets)
  {
    ParseFrame(p, rest);
    assert ([p] + Parse(rest).packets)[1..] == Parse(rest).packets;
  }

  /** The process id comes first and is not part of what is heard. */
  lemma PidAside(s: ServerState, c: ClientState, read: seq<byte>)
    requires Member(s, c) && read <= c.out.wire
    ensures Heard(read).Some? <==> DumpOut(Parse(read).packets).Some?
    ensures Heard(read).Some? ==> Heard(read) == DumpOut(Parse(read).packets)
  {
    FramesNeverTorn(s, c, read);
    var ps := Parse(read).packets;
    if ps != [] {
      assert ps[0] == c.out.accepted[0] == PidPacket(s.pid);
      var more := DumpOut(ps[1..]);
      assert more.Some? ==> [] + more.value == more.value;
    }
  }

  /** End-to-end dump: whatever the other clients do, however the writes are split and whatever
      pieces they arrive in, a dump that is printed is cut from exactly the last 1 MiB of the
      output as of the tick that processed the request; that is the full output, as the
      documentation has it, exactly when there was no more than that. */
  lemma DumpEndToEnd(s: ServerState, c: ClientState, read: seq<byte>)
    requires Member(s, c) && c.fed <= Encode(DUMP_REQUEST) && read <= c.out.wire
    requires Heard(read).Some?
    ensures |c.replays| == 1 && c.replays[0].at <= |s.output|
    ensures Heard(read).value == Window(s.output[..c.replays[0].at])
    ensures Heard(read).value == s.output[..c.replays[0].at] <==> c.replays[0].at <= HISTORY_CAP
  {
    PidAside(s, c, read);
    DumpDelivers(s, c, read);
  }

  /** The same by the tick: if the last byte of a client's one request is received in tick t, then
      however long the server runs on, what that client prints is the history as of the end of
      tick t. */
  lemma DumpOfTick(s: ServerState, t: Tick, i: nat, ticks: seq<Tick>, e: ClientState, read: seq<byte>)
    requires Reachable(s) && !s.finished && i < |Present(s, t)|
    requires Present(s, t)[i].fed != Encode(DUMP_REQUEST) && Ticked(s, t)[i].fed == Encode(DUMP_REQUEST)
    requires var s' := Run(Step(s, t), ticks);
             (e in s'.clients || e in s'.gone) && e.id == Ticked(s, t)[i].id
    requires e.fed == Encode(DUMP_REQUEST) && read <= e.out.wire
    ensures Heard(read).Some? ==> Heard(read).value == Window(Step(s, t).output)
  {
    hide ClientInv, Good, Encode, Present, Ticked, Run, Step, Heard, Window;
    var c, d, s' := Present(s, t)[i], Ticked(s, t)[i], Run(Step(s, t), ticks);
    FromTick(s, t, i, ticks, e);
    OnlyDumpIn(c, s.pid, s.output, s.exit);
    OnlyDumpIn(d, s.pid, Step(s, t).output, Step(s, t).exit);
    MemberInv(s', e);
    OnlyDumpIn(e, s'.pid, s'.output, s'.exit);
    StampOfTick(s, t, i, ticks, e);
    if Heard(read).Some? {
      DumpEndToEnd(s', e, read);
      assert s'.output[..|Step(s, t).output|] == Step(s, t).output;
    }
  }

  lemma OnlyDumpIn(c: ClientState, pid: nat, output: seq<byte>, exit: Option<i32>)
    requires ClientInv(c, pid, output, exit) && c.fed <= Encode(DUMP_REQUEST)
    ensures |c.replays| == if c.fed == Encode(DUMP_REQUEST) then 1 else 0
  {
    OnlyDump(c);
  }

  /** ... and one whose request was processed, whose socket did not fail and whose queue has
      drained to the reader is printed. */
  lemma DumpArrives(s: ServerState, c: ClientState)
    requires Member(s, c) && c.fed == Encode(DUMP_REQUEST) && !c.out.failed && c.out.queue == []
    ensures Heard(c.out.wire).Some?
  {
    FramesNeverTorn(s, c, c.out.wire);
    DumpDelivers(s, c, c.out.wire);
    assert c.out.wire + [] == c.out.wire;
    MemberInv(s, c);
    ParseEncoded(c.out.accepted);
    PidAside(s, c, c.out.wire);
  }

  /** A plain `-d` prints the whole history, which is all the session ever wrote exactly when that
      is at most 1 MiB. */
  lemma DumpPlain(s: ServerState, c: ClientState, read: seq<byte>)
    requires Member(s, c) && c.fed <= Encode(DUMP_REQUEST) && read <= c.out.wire
    requires Heard(read).Some?
    ensures |c.replays| == 1 && c.replays[0].at <= |s.output|
    ensures var p := s.output[..c.replays[0].at];
            && Shown(Heard(read).value, 0, 0) == Window(p)
            && (Shown(Heard(read).value, 0, 0) == p <==> |p| <= 0x10_0000)
  {
    DumpEndToEnd(s, c, read);
  }

  /** `-d -L n` prints the last n lines of everything the session ever wrote, exactly when
      they fit the history. */
  lemma DumpLines(s: ServerState, c: ClientState, read: seq<byte>, n: nat)
    requires Member(s, c) && c.fed <= Encode(DUMP_REQUEST) && read <= c.out.wire
    requires Heard(read).Some? && n > 0
    ensures |c.replays| == 1 && c.replays[0].at <= |s.output|
    ensures var p := s.output[..c.replays[0].at];
            Shown(Heard(read).value, 0, n) == LastLines(p, n) <==> |LastLines(p, n)| <= HISTORY_CAP
  {
    DumpEndToEnd(s, c, read);
    WindowedTail(s.output[..c.replays[0].at], n);
  }

  /** `-d -N n` prints the last n bytes of everything the session ever wrote, or as many of
      them as the history keeps. */
  lemma DumpBytes(s: ServerState, c: ClientState, read: seq<byte>, n: nat)
    requires Member(s, c) && c.fed <= Encode(DUMP_REQUEST) && read <= c.out.wire
    requires Heard(read).Some? && n > 0
    ensures |c.replays| == 1 && c.replays[0].at <= |s.output|
    ensures var p := s.output[..c.replays[0].at];
            && Shown(Heard(read).value, n, 0) == LastN(p, Min(n, HISTORY_CAP))
            && (Shown(Heard(read).value, n, 0) == LastN(p, n) <==> n <= HISTORY_CAP || |p| <= HISTORY_CAP)
  {
    DumpEndToEnd(s, c, read);
  }

  /** With both options the lines are cut from the bytes: they are the last n lines of everything
      the session ever wrote exactly when those fit the bytes asked for and the history. */
  lemma DumpBoth(s: ServerState, c: ClientState, read: seq<byte>, m: nat, n: nat)
    requires Member(s, c) && c.fed <= Encode(DUMP_REQUEST) && read <= c.out.wire
    requires Heard(read).Some? && m > 0 && n > 0
    ensures |c.replays| == 1 && c.replays[0].at <= |s.output|
    ensures var p := s.output[..c.replays[0].at];
            && Shown(Heard(read).value, m, n) == LastLines(LastN(p, Min(m, HISTORY_CAP)), n)
            && (Shown(Heard(read).value, m, n) == LastLines(p, n) <==> |LastLines(p, n)| <= Min(m, HISTORY_CAP))
  {
    hide LastLines, LastN, Member, Encode, Heard;
    DumpEndToEnd(s, c, read);
    BytesOfWindow(s.output[..c.replays[0].at], m);
    TailOfLast(s.output[..c.replays[0].at], Min(m, HISTORY_CAP), n);
  }

  lemma BytesOfWindow(p: seq<byte>, m: nat)
    ensures LastN(Window(p), m) == LastN(p, Min(m, HISTORY_CAP))
  {
  }

  // ------------------------------------------------------------------------ keys

  lemma {:induction false} KeysAsk(ps: seq<Packet>)
    requires forall p :: p in ps ==> p.typ == MSG_SEND_KEYS
    ensures FlagsAfter(ps) == 0
    ensures Written(OpsOf(ps)) == Payloads(ps, MSG_SEND_KEYS)
    decreases |ps|
  {
    if ps != [] {
      var before, p := Init(ps), Last(ps);
      hide OpsOf, FlagsAfter, Written, Payloads;
      KeysAsk(before);
      AskedAppend(before, p);
      KeyAsks(p);
      WrittenAppend(OpsOf(before), [Input(p.payload)]);
      PayloadsAppend(before, [p], MSG_SEND_KEYS);
      assert before + [p] == ps;
    }
  }

  lemma KeyAsks(p: Packet)
    requires p.typ == MSG_SEND_KEYS
    ensures OpOf(0, p) == [Input(p.payload)]
    ensures Written([Input(p.payload)]) == Payloads([p], MSG_SEND_KEYS)
  {
  }

  lemma {:induction false} WrittenAppend(a: seq<PtyOp>, b: seq<PtyOp>)
    ensures Written(a + b) == Written(a) + Written(b)
  {
    if a == [] {
      assert a + b == b;
    } else {
      assert (a + b)[1..] == a[1..] + b;
      WrittenAppend(a[1..], b);
    }
  }

  /** Decoding part of a client's packets, and typing what they ask for. */
  lemma KeysTyped(ps: seq<Packet>, got: seq<Packet>)
    requires got <= ps && forall p :: p in ps ==> p.typ == MSG_SEND_KEYS
    ensures Flatten(Written(OpsOf(got))) <= Typed(ps)
    ensures got == ps ==> Flatten(Written(OpsOf(got))) == Typed(ps)
  {
    assert ps == got + ps[|got|..];
    KeysAsk(got);
    PayloadsAppend(got, ps[|got|..], MSG_SEND_KEYS);
    FlattenAppend(Payloads(got, MSG_SEND_KEYS), Payloads(ps[|got|..], MSG_SEND_KEYS));
  }

  /** Send-keys end to end, for any packets of keys: what the terminal has been written for a
      client that sends nothing else is a prefix of the bytes they type, however they were cut
      up on the way, and all of them once all have been received. */
  lemma TypingArrives(s: ServerState, c: ClientState, sent: seq<Packet>)
    requires Member(s, c) && AllKeyPackets(sent) && c.fed <= EncodeAll(sent)
    ensures var typed := Flatten(Written(Project(s.master, c.id)));
            && typed <= Typed(sent)
            && (c.fed == EncodeAll(sent) ==> typed == Typed(sent))
  {
    hide Member, Typed, Encode, Recv;
    InputIntegrity(s, c);
    ParsePrefix(sent, c.fed);
    KeysTyped(sent, Parse(c.fed).packets);
    if c.fed == EncodeAll(sent) {
      ParseEncoded(sent);
    }
  }

  /** For the Rust client and any tokens. */
  lemma KeysArrive(s: ServerState, c: ClientState, tokens: seq<Token>, literal: bool)
    requires Member(s, c) && c.fed <= EncodeAll(KeyPackets(tokens, literal))
    ensures var typed := Flatten(Written(Project(s.master, c.id)));
            && typed <= KeyBytes(tokens, literal)
            && (c.fed == EncodeAll(KeyPackets(tokens, literal)) ==> typed == KeyBytes(tokens, literal))
  {
    hide Member, Typed, Encode, KeyBytes;
    ChunkPackets(KeyBytes(tokens, literal));
    TypingArrives(s, c, KeyPackets(tokens, literal));
    KeyPacketsType(tokens, literal);
  }

  /** For the C client: `sent` is what `CSendKeys` returns. */
  lemma CKeysArrive(s: ServerState, c: ClientState, tokens: seq<Token>, literal: bool, sent: seq<Packet>)
    requires AllKeyPackets(sent) && Typed(sent) == KeyBytes(tokens, literal)
    requires Member(s, c) && c.fed <= EncodeAll(sent)
    ensures var typed := Flatten(Written(Project(s.master, c.id)));
            && typed <= KeyBytes(tokens, literal)
            && (c.fed == EncodeAll(sent) ==> typed == KeyBytes(tokens, literal))
  {
    hide Member, Typed, Encode, KeyBytes;
    TypingArrives(s, c, sent);
  }
}
