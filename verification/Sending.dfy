/** A client's outgoing side: the bounded send queue in front of a socket whose writes
    may be partial, blocked, interrupted or failing. */
module Sending {
  import opened Protocol

  /** One turn of the flush loop: how far the front slice of the deque happens to reach
      (it is a ring, so the rest of the queue may sit in a second slice), and the answer
      to writing that slice. */
  datatype Write = Write(split: nat, result: WriteResult)

  /** `writes` are the answers the kernel has yet to give; after them every write blocks.
      `wire`, `accepted` and `failed` record the bytes written, the packets that entered the
      queue, and whether a write has returned an error. */
  datatype Outbox = Outbox(queue: seq<byte>, writes: seq<Write>,
                           wire: seq<byte>, accepted: seq<Packet>, failed: bool)

  datatype Sent = Sent(box: Outbox, ok: bool)

  /** The length of `as_slices().0`: not empty unless the queue is. */
  function FrontLen(queue: seq<byte>, split: nat): (n: nat)
    ensures n <= |queue| && (n == 0 <==> queue == [])
  {
    if queue == [] then 0 else if split == 0 then 1 else Min(split, |queue|)
  }

  datatype Turn = Again(box: Outbox) | Done(box: Outbox) | Error(box: Outbox)

  function WriteFront(o: Outbox): Turn
    requires o.queue != [] && o.writes != []
  {
    var w, next := o.writes[0], o.(writes := o.writes[1..]);
    match w.result
    case Accept(n) =>
      var k := Min(n, FrontLen(o.queue, w.split));
      if k == 0 then Error(next.(failed := true))
      else Again(next.(wire := o.wire + o.queue[..k], queue := o.queue[k..]))
    case WouldBlock => Done(next)
    case Interrupted => Again(next)
    case Failed => Error(next.(failed := true))
  }

  /** `try_flush_client`. */
  function Flush(o: Outbox): Sent
    decreases |o.writes|
  {
    if o.queue == [] || o.writes == [] then Sent(o, true)
    else
      match WriteFront(o)
      case Again(next) => Flush(next)
      case Done(next) => Sent(next, true)
      case Error(next) => Sent(next, false)
  }

  function Enqueue(o: Outbox, p: Packet): Outbox {
    o.(queue := o.queue + Encode(p), accepted := o.accepted + [p])
  }

  /** `send_packet_nonblocking`. */
  function Send(o: Outbox, p: Packet): Sent {
    if |o.queue| + |Encode(p)| > SEND_QUEUE_CAP then Sent(o, false) else Flush(Enqueue(o, p))
  }

  /** Send in order, giving up at the first error. */
  function SendAll(o: Outbox, ps: seq<Packet>): Sent
    decreases |ps|
  {
    if ps == [] then Sent(o, true)
    else
      var s := Send(o, ps[0]);
      if s.ok then SendAll(s.box, ps[1..]) else s
  }

  function ReplayPackets(window: seq<byte>): seq<Packet> {
    ToPackets(MSG_CONTENT, Chunks(window))
  }

  const DUMP_END_PACKET := Packet(MSG_DUMP_END, [])

  /** `send_history`; `ok` is false when it disconnects the client. What becomes of the
      end-of-dump packet is ignored, as in the source. */
  function SendHistory(o: Outbox, window: seq<byte>, sendEnd: bool): Sent {
    var s := SendAll(o, ReplayPackets(window));
    if s.ok && sendEnd then Sent(Send(s.box, DUMP_END_PACKET).box, true) else s
  }

  // ------------------------------------------------------ frame conservation

  /** The bytes on the wire followed by the bytes still queued are the frames accepted. */
  ghost predicate Framed(o: Outbox) {
    && o.wire + o.queue == EncodeAll(o.accepted)
    && |o.queue| <= SEND_QUEUE_CAP
    && AllFit(o.accepted)
  }

  /** What any sending does to an outbox, whatever the kernel answers. */
  ghost predicate Grows(o: Outbox, o': Outbox) {
    && o.wire <= o'.wire
    && o.accepted <= o'.accepted
    && (o.failed ==> o'.failed)
  }

  lemma {:induction false} FlushMoves(o: Outbox)
    ensures var s := Flush(o);
            && s.box.wire + s.box.queue == o.wire + o.queue
            && o.wire <= s.box.wire
            && s.box.accepted == o.accepted
            && (s.box.failed <==> o.failed || !s.ok)
    decreases |o.writes|
  {
    if o.queue != [] && o.writes != [] && WriteFront(o).Again? {
      FlushMoves(WriteFront(o).box);
    }
  }

  /** The last answer a flush took, if it took any. */
  function LastTaken(o: Outbox, after: Outbox): Option<WriteResult> {
    var k := |o.writes| - |after.writes|;
    if 0 < k <= |o.writes| then Some(o.writes[k - 1].result) else None
  }

  /** A write fails, or takes nothing. */
  predicate Fatal(a: WriteResult) { a.Failed? || a == Accept(0) }

  /** A flush gives up on a queue only for a reason: the kernel blocked, or a write failed or took
      nothing, which alone is an error. */
  lemma {:induction false} FlushStops(o: Outbox)
    ensures var s := Flush(o);
            && |s.box.writes| <= |o.writes| && s.box.writes == o.writes[|o.writes| - |s.box.writes|..]
            && (s.ok && s.box.queue != [] ==> s.box.writes == [] || LastTaken(o, s.box) == Some(WouldBlock))
            && (!s.ok <==> LastTaken(o, s.box).Some? && Fatal(LastTaken(o, s.box).value))
    decreases |o.writes|
  {
    hide WriteFront, LastTaken;
    if o.queue != [] && o.writes != [] {
      TurnTakesOne(o);
      var next := WriteFront(o).box;
      if WriteFront(o).Again? {
        FlushStops(next);
        TakenSince(o, next, Flush(next).box);
      } else {
        TakenFirst(o, next);
      }
    } else {
      assert o.writes[0..] == o.writes;
      NothingWritten(o);
    }
  }

  lemma NothingWritten(o: Outbox)
    ensures LastTaken(o, o).None?
  {
  }

  lemma TurnTakesOne(o: Outbox)
    requires o.queue != [] && o.writes != []
    ensures var t := WriteFront(o);
            && t.box.writes == o.writes[1..]
            && (t.Done? ==> o.writes[0].result.WouldBlock?)
            && (t.Error? <==> Fatal(o.writes[0].result))
  {
  }

  lemma TakenFirst(o: Outbox, after: Outbox)
    requires o.writes != [] && after.writes == o.writes[1..]
    ensures LastTaken(o, after) == Some(o.writes[0].result)
    ensures o.writes[|o.writes| - |after.writes|..] == after.writes
  {
  }

  lemma TakenSince(o: Outbox, next: Outbox, after: Outbox)
    requires o.writes != [] && next.writes == o.writes[1..] && |after.writes| <= |next.writes|
    ensures o.writes[|o.writes| - |after.writes|..] == next.writes[|next.writes| - |after.writes|..]
    ensures LastTaken(o, after) == if LastTaken(next, after).Some? then LastTaken(next, after) else Some(o.writes[0].result)
  {
  }

  lemma FlushKeeps(o: Outbox)
    requires Framed(o)
    ensures Framed(Flush(o).box)
  {
    FlushMoves(o);
    var b := Flush(o).box;
    assert |b.wire + b.queue| == |o.wire + o.queue|;
  }

  lemma EnqueueKeeps(o: Outbox, p: Packet)
    requires Framed(o) && Fits(p) && |o.queue| + |Encode(p)| <= SEND_QUEUE_CAP
    ensures Framed(Enqueue(o, p))
  {
    EncodeAllAppend(o.accepted, [p]);
    assert EncodeAll([p]) == Encode(p) + EncodeAll([p][1..]);
    assert o.wire + (o.queue + Encode(p)) == (o.wire + o.queue) + Encode(p);
  }

  predicate Overflows(o: Outbox, p: Packet) { |o.queue| + |Encode(p)| > SEND_QUEUE_CAP }

  /** A packet is accepted whole or, when it would overflow the queue, leaves no byte;
      the only other error is the socket's. */
  lemma SendKeeps(o: Outbox, p: Packet)
    requires Framed(o) && Fits(p)
    ensures var s := Send(o, p);
            && Framed(s.box)
            && Grows(o, s.box)
            && (if Overflows(o, p) then s == Sent(o, false)
                else s.box.accepted == o.accepted + [p] && (s.box.failed <==> o.failed || !s.ok))
  {
    if !Overflows(o, p) {
      EnqueueKeeps(o, p);
      FlushKeeps(Enqueue(o, p));
      FlushMoves(Enqueue(o, p));
    }
  }

  lemma {:induction false} SendAllKeeps(o: Outbox, ps: seq<Packet>)
    requires Framed(o) && AllFit(ps)
    ensures var s := SendAll(o, ps);
            && Framed(s.box)
            && Grows(o, s.box)
            && s.box.accepted <= o.accepted + ps
            && (s.ok ==> s.box.accepted == o.accepted + ps && s.box.failed == o.failed)
    decreases |ps|
  {
    hide Send, Framed;
    if ps != [] {
      var s := Send(o, ps[0]);
      SendKeeps(o, ps[0]);
      if s.ok {
        SendAllKeeps(s.box, ps[1..]);
        assert (o.accepted + [ps[0]]) + ps[1..] == o.accepted + ps;
      }
    }
  }

  lemma {:induction false} PacketsFit(parts: seq<seq<byte>>, typ: u32)
    requires forall c :: c in parts ==> |c| <= MAX_PAYLOAD
    ensures AllFit(ToPackets(typ, parts))
  {
    if parts != [] {
      PacketsFit(parts[1..], typ);
    }
  }

  lemma {:induction false} ChunksFit(s: seq<byte>)
    ensures forall c :: c in Chunks(s) ==> |c| <= MAX_PAYLOAD
  {
    if s != [] {
      ChunksFit(s[Min(|s|, MAX_PAYLOAD)..]);
    }
  }

  /** Every frame of a replay fits a packet, their payloads make up the window, and nothing
      but content is among them. */
  lemma ReplayPacketsMake(window: seq<byte>)
    ensures var ps := ReplayPackets(window);
            && AllFit(ps)
            && Contents(ps) == window
            && |ps| == CeilDiv(|window|, MAX_PAYLOAD)
            && |EncodeAll(ps)| == |window| + 8 * |ps|
  {
    ChunksFit(window);
    PacketsFit(Chunks(window), MSG_CONTENT);
    ChunksFlatten(window);
    ToPacketsPayloads(MSG_CONTENT, Chunks(window));
    EncodedLength(MSG_CONTENT, Chunks(window));
  }

  lemma SendHistoryKeeps(o: Outbox, window: seq<byte>, sendEnd: bool)
    requires Framed(o)
    ensures var s := SendHistory(o, window, sendEnd);
            var all := o.accepted + ReplayPackets(window);
            && Framed(s.box)
            && Grows(o, s.box)
            && s.box.accepted <= all + [DUMP_END_PACKET]
            && (!s.ok || !sendEnd ==> s.box.accepted <= all)
            && (s.ok ==> all <= s.box.accepted)
  {
    ReplayPacketsMake(window);
    var s := SendAll(o, ReplayPackets(window));
    SendAllKeeps(o, ReplayPackets(window));
    if s.ok && sendEnd {
      SendKeeps(s.box, DUMP_END_PACKET);
    }
  }

  // ---------------------------------------------------------------- capacity

  /** A whole history, its packet headers, and the end-of-dump frame. */
  const REPLAY_COST: nat := 1_050_640

  lemma {:induction false} SendAllFits(o: Outbox, ps: seq<Packet>)
    requires |o.queue| + |EncodeAll(ps)| <= SEND_QUEUE_CAP
    ensures var s := SendAll(o, ps);
            && |s.box.queue| <= |o.queue| + |EncodeAll(ps)|
            && (!s.ok ==> s.box.failed)
    decreases |ps|
  {
    if ps != [] {
      var s := Send(o, ps[0]);
      FlushMoves(Enqueue(o, ps[0]));
      assert |s.box.wire + s.box.queue| == |o.wire + (o.queue + Encode(ps[0]))|;
      if s.ok {
        SendAllFits(s.box, ps[1..]);
      }
    }
  }

  lemma ReplayCost(window: seq<byte>)
    requires |window| <= HISTORY_CAP
    ensures |EncodeAll(ReplayPackets(window))| + |Encode(DUMP_END_PACKET)| <= REPLAY_COST
    ensures |window| == HISTORY_CAP ==>
              |EncodeAll(ReplayPackets(window))| + |Encode(DUMP_END_PACKET)| == REPLAY_COST
  {
    ReplayPacketsMake(window);
  }

  /** With that much room a replay never overflows: it either reaches the end-of-dump packet
      or the socket failed. */
  lemma ReplayFits(o: Outbox, window: seq<byte>)
    requires Framed(o) && |window| <= HISTORY_CAP && |o.queue| <= SEND_QUEUE_CAP - REPLAY_COST
    ensures var s := SendHistory(o, window, true);
            && (!s.ok ==> s.box.failed)
            && (!s.box.failed ==> s.box.accepted == o.accepted + ReplayPackets(window) + [DUMP_END_PACKET])
  {
    ReplayCost(window);
    ReplayPacketsMake(window);
    var s := SendAll(o, ReplayPackets(window));
    SendAllFits(o, ReplayPackets(window));
    SendAllKeeps(o, ReplayPackets(window));
    if s.ok {
      SendKeeps(s.box, DUMP_END_PACKET);
    }
  }

  // ------------------------------------------------- what a dump client hears

  /** The `match` loop of `dump_session`: what it has gathered when the end-of-dump packet
      arrives, if one does. */
  function DumpOut(ps: seq<Packet>): Option<seq<byte>> {
    if ps == [] then None
    else if ps[0].typ == MSG_DUMP_END then Some([])
    else
      var more := DumpOut(ps[1..]);
      if more.None? then None
      else Some((if ps[0].typ == MSG_CONTENT then ps[0].payload else []) + more.value)
  }

  /** Packets after the end-of-dump packet change nothing. */
  lemma {:induction false} DumpOutAppend(a: seq<Packet>, b: seq<Packet>)
    ensures DumpOut(a + b) ==
            if DumpOut(a).Some? then DumpOut(a)
            else if DumpOut(b).None? then None
            else Some(Contents(a) + DumpOut(b).value)
  {
    if a == [] {
      assert a + b == b;
      assert DumpOut(b).Some? ==> [] + DumpOut(b).value == DumpOut(b).value;
    } else {
      assert (a + b)[1..] == a[1..] + b;
      DumpOutAppend(a[1..], b);
      assert [a[0]] + a[1..] == a;
      ContentsAppend([a[0]], a[1..]);
      ContentsOne(a[0]);
      if DumpOut(a).None? && DumpOut(b).Some? {
        assert Contents([a[0]]) + (Contents(a[1..]) + DumpOut(b).value) == Contents(a) + DumpOut(b).value;
      }
    }
  }

  lemma {:induction false} OtherPayloads(typ: u32, parts: seq<seq<byte>>, other: u32)
    requires typ != other
    ensures Payloads(ToPackets(typ, parts), other) == []
  {
    if parts != [] {
      OtherPayloads(typ, parts[1..], other);
    }
  }

  lemma {:induction false} NoEnd(ps: seq<Packet>)
    requires Payloads(ps, MSG_DUMP_END) == []
    ensures DumpOut(ps).None?
  {
    if ps != [] {
      NoEnd(ps[1..]);
    }
  }

  lemma PrefixPayloads(a: seq<Packet>, b: seq<Packet>, typ: u32)
    requires a <= b && Payloads(b, typ) == []
    ensures Payloads(a, typ) == []
  {
  }

  /** What one packet adds to the lists a client's accepted packets are judged by. */
  lemma AddPacket(ps: seq<Packet>, p: Packet)
    ensures Payloads(ps + [p], MSG_EXIT) == Payloads(ps, MSG_EXIT) + if p.typ == MSG_EXIT then [p.payload] else []
    ensures Contents(ps + [p]) == Contents(ps) + if p.typ == MSG_CONTENT then p.payload else []
    ensures p.typ != MSG_DUMP_END ==> DumpOut(ps + [p]) == DumpOut(ps)
    ensures p.typ == MSG_DUMP_END && DumpOut(ps).None? ==> DumpOut(ps + [p]) == Some(Contents(ps))
    ensures EncodeAll(ps + [p]) == EncodeAll(ps) + Encode(p)
  {
    hide Encode, Contents;
    PayloadsAppend(ps, [p], MSG_EXIT);
    ContentsAppend(ps, [p]);
    ContentsOne(p);
    DumpOutAppend(ps, [p]);
    assert [p][1..] == [] && DumpOut([]) == None && Payloads([], MSG_EXIT) == [];
    assert Contents(ps) + [] == Contents(ps);
    EncodeAllAppend(ps, [p]);
    assert EncodeAll([p]) == Encode(p) + EncodeAll([]);
  }

  /** ... and what a replay, or the part of it that was accepted, adds. */
  lemma AddReplay(o: Outbox, window: seq<byte>, sendEnd: bool)
    requires Framed(o)
    ensures var s := SendHistory(o, window, sendEnd);
            && Payloads(s.box.accepted, MSG_EXIT) == Payloads(o.accepted, MSG_EXIT)
            && (s.ok ==> Contents(s.box.accepted) == Contents(o.accepted) + window)
            && (DumpOut(o.accepted).None? && DumpOut(s.box.accepted).Some? ==>
                  sendEnd && DumpOut(s.box.accepted).value == Contents(o.accepted) + window)
  {
    var s := SendHistory(o, window, sendEnd);
    var replay := ReplayPackets(window);
    SendHistoryKeeps(o, window, sendEnd);
    ReplayPacketsMake(window);
    OtherPayloads(MSG_CONTENT, Chunks(window), MSG_EXIT);
    OtherPayloads(MSG_CONTENT, Chunks(window), MSG_DUMP_END);
    AddPacket(o.accepted + replay, DUMP_END_PACKET);
    PayloadsAppend(o.accepted, replay, MSG_EXIT);
    ContentsAppend(o.accepted, replay);
    DumpOutAppend(o.accepted, replay);
    NoEnd(replay);
    if s.box.accepted != o.accepted + replay + [DUMP_END_PACKET] {
      assert s.ok ==> s.box.accepted == o.accepted + replay;
      PartOfReplay(o.accepted, replay, s.box.accepted);
    }
  }

  lemma PartOfReplay(a: seq<Packet>, replay: seq<Packet>, b: seq<Packet>)
    requires a <= b <= a + replay
    requires Payloads(replay, MSG_EXIT) == [] && Payloads(replay, MSG_DUMP_END) == []
    ensures Payloads(b, MSG_EXIT) == Payloads(a, MSG_EXIT)
    ensures DumpOut(a).None? ==> DumpOut(b).None?
  {
    var part := b[|a|..];
    assert b == a + part && part <= replay;
    PrefixPayloads(part, replay, MSG_EXIT);
    PrefixPayloads(part, replay, MSG_DUMP_END);
    PayloadsAppend(a, part, MSG_EXIT);
    DumpOutAppend(a, part);
    NoEnd(part);
  }
}
