/** What one tick sends a client, and exactly when that has a gap: a client that is being
    disconnected is still sent what fits its queue until the tick is over. */
module Delivery {
  import opened Protocol
  import opened Codec
  import opened Sending
  import opened Session
  import opened Invariant

  // -------------------------------------------------------------------- batches

  /** Frames sent in order until one meets an error: a chunk of output, or a replay, after
      which an end-of-dump packet may follow. */
  datatype Batch = Batch(frames: seq<Packet>, end: bool)

  function Deliver(o: Outbox, b: Batch): Outbox {
    var s := SendAll(o, b.frames);
    if s.ok && b.end then Send(s.box, DUMP_END_PACKET).box else s.box
  }

  function DeliverAll(o: Outbox, bs: seq<Batch>): Outbox
    decreases |bs|
  {
    if bs == [] then o else DeliverAll(Deliver(o, bs[0]), bs[1..])
  }

  lemma {:induction false} DeliverAllAppend(o: Outbox, a: seq<Batch>, b: seq<Batch>)
    ensures DeliverAll(o, a + b) == DeliverAll(DeliverAll(o, a), b)
    decreases |a|
  {
    hide Deliver;
    if a == [] {
      assert a + b == b;
    } else {
      assert (a + b)[1..] == a[1..] + b;
      DeliverAllAppend(Deliver(o, a[0]), a[1..], b);
    }
  }

  /** How many of the frames are accepted. */
  function Taken(o: Outbox, ps: seq<Packet>): (n: nat)
    ensures n <= |ps|
    decreases |ps|
  {
    if ps == [] || Overflows(o, ps[0]) then 0
    else
      var s := Send(o, ps[0]);
      1 + if s.ok then Taken(s.box, ps[1..]) else 0
  }

  lemma {:induction false} TakenAccepted(o: Outbox, ps: seq<Packet>)
    requires Framed(o) && AllFit(ps)
    ensures SendAll(o, ps).box.accepted == o.accepted + ps[..Taken(o, ps)]
    ensures SendAll(o, ps).ok ==> Taken(o, ps) == |ps|
    ensures Framed(SendAll(o, ps).box)
    decreases |ps|
  {
    hide Send, Framed;
    if ps != [] {
      var s := Send(o, ps[0]);
      SendKeeps(o, ps[0]);
      if s.ok {
        TakenAccepted(s.box, ps[1..]);
        var n := Taken(s.box, ps[1..]);
        assert (o.accepted + [ps[0]]) + ps[1..][..n] == o.accepted + ps[..1 + n];
      } else if !Overflows(o, ps[0]) {
        assert ps[..1] == [ps[0]];
      }
    }
  }

  function Takes(o: Outbox, bs: seq<Batch>): (ns: seq<nat>)
    ensures |ns| == |bs|
    decreases |bs|
  {
    if bs == [] then [] else [Taken(o, bs[0].frames)] + Takes(Deliver(o, bs[0]), bs[1..])
  }

  /** No frame is accepted after one that was left out. */
  predicate Gapless(ns: seq<nat>, bs: seq<Batch>)
    requires |ns| == |bs|
  {
    forall i, j :: 0 <= i < j < |bs| && ns[j] > 0 ==> ns[i] == |bs[i].frames|
  }

  predicate AllZero(ns: seq<nat>) { forall j :: 0 <= j < |ns| ==> ns[j] == 0 }

  datatype Cut = Uncut | Short(box: Outbox, later: seq<Batch>)

  /** The first batch to be cut short: the outbox it leaves, and the batches to come. */
  function FirstCut(o: Outbox, bs: seq<Batch>): Cut
    decreases |bs|
  {
    if bs == [] then Uncut
    else if Taken(o, bs[0].frames) < |bs[0].frames| then Short(Deliver(o, bs[0]), bs[1..])
    else FirstCut(Deliver(o, bs[0]), bs[1..])
  }

  ghost predicate NothingFits(o: Outbox, bs: seq<Batch>) {
    forall b :: b in bs && b.frames != [] ==> Overflows(o, b.frames[0])
  }

  ghost predicate AllEmpty(bs: seq<Batch>) { forall b :: b in bs ==> b.frames == [] }

  ghost predicate NoneEmpty(bs: seq<Batch>) { forall b :: b in bs ==> b.frames != [] }

  lemma TakenNone(o: Outbox, b: Batch)
    requires b.frames != []
    ensures Taken(o, b.frames) == 0 <==> Overflows(o, b.frames[0])
    ensures Overflows(o, b.frames[0]) ==> Deliver(o, b) == o
  {
  }

  lemma {:induction false} NoneTaken(o: Outbox, bs: seq<Batch>)
    requires NoneEmpty(bs)
    ensures AllZero(Takes(o, bs)) <==> NothingFits(o, bs)
    decreases |bs|
  {
    hide Taken, Deliver, Overflows;
    if bs != [] {
      var b, rest := bs[0], bs[1..];
      assert b in bs;
      TakenNone(o, b);
      if Overflows(o, b.frames[0]) {
        NoneTaken(o, rest);
        ShiftZero(Takes(o, bs), Takes(o, rest));
        NothingFitsCons(o, b, rest);
        assert bs == [b] + rest;
      } else {
        assert Takes(o, bs)[0] != 0;
      }
    }
  }

  lemma NothingFitsCons(o: Outbox, b: Batch, bs: seq<Batch>)
    ensures NothingFits(o, [b] + bs) <==> (b.frames != [] ==> Overflows(o, b.frames[0])) && NothingFits(o, bs)
  {
  }

  lemma ShiftZero(ns: seq<nat>, rest: seq<nat>)
    requires ns == [0] + rest
    ensures AllZero(ns) <==> AllZero(rest)
  {
    if AllZero(ns) {
      forall j | 0 <= j < |rest|
        ensures rest[j] == 0
      {
        assert ns[j + 1] == rest[j];
      }
    }
  }

  lemma {:induction false} UncutIsWhole(o: Outbox, bs: seq<Batch>)
    requires FirstCut(o, bs).Uncut?
    ensures forall i :: 0 <= i < |bs| ==> Takes(o, bs)[i] == |bs[i].frames|
    decreases |bs|
  {
    hide Taken, Deliver;
    if bs != [] {
      UncutIsWhole(Deliver(o, bs[0]), bs[1..]);
    }
  }

  /** What is accepted has a gap exactly when some later batch still finds room for its first
      frame in the queue that the first batch cut short leaves. */
  lemma {:induction false} GapExact(o: Outbox, bs: seq<Batch>)
    requires NoneEmpty(bs) || AllEmpty(bs)
    ensures var cut := FirstCut(o, bs);
            Gapless(Takes(o, bs), bs) <==> cut.Uncut? || NothingFits(cut.box, cut.later)
    decreases |bs|
  {
    hide Taken, Deliver, Overflows, Gapless, AllZero, NothingFits;
    if bs == [] {
      NoGap(Takes(o, bs), bs);
    } else {
      var b, rest := bs[0], bs[1..];
      assert b in bs && forall d :: d in rest ==> d in bs;
      var n, ns := Taken(o, b.frames), Takes(Deliver(o, b), rest);
      assert Takes(o, bs) == [n] + ns && bs == [b] + rest;
      if n < |b.frames| {
        NoneTaken(Deliver(o, b), rest);
        GapAfterCut(n, b, ns, rest);
      } else {
        GapExact(Deliver(o, b), rest);
        GapAfterWhole(b, ns, rest);
      }
    }
  }

  lemma NoGap(ns: seq<nat>, bs: seq<Batch>)
    requires |ns| == |bs| == 0
    ensures Gapless(ns, bs)
  {
  }

  lemma GapAfterCut(n: nat, b: Batch, ns: seq<nat>, bs: seq<Batch>)
    requires |ns| == |bs| && n < |b.frames|
    ensures Gapless([n] + ns, [b] + bs) <==> AllZero(ns)
  {
    if Gapless([n] + ns, [b] + bs) {
      forall j | 0 <= j < |bs|
        ensures ns[j] == 0
      {
        assert ([n] + ns)[0] == n && ([n] + ns)[j + 1] == ns[j] && ([b] + bs)[0] == b;
      }
    }
  }

  lemma GapAfterWhole(b: Batch, ns: seq<nat>, bs: seq<Batch>)
    requires |ns| == |bs|
    ensures Gapless([|b.frames|] + ns, [b] + bs) <==> Gapless(ns, bs)
  {
    var ms, cs := [|b.frames|] + ns, [b] + bs;
    if Gapless(ms, cs) {
      forall i, j | 0 <= i < j < |bs| && ns[j] > 0
        ensures ns[i] == |bs[i].frames|
      {
        assert ms[i + 1] == ns[i] && ms[j + 1] == ns[j] && cs[i + 1] == bs[i];
      }
    }
    if Gapless(ns, bs) {
      forall i, j | 0 <= i < j < |cs| && ms[j] > 0
        ensures ms[i] == |cs[i].frames|
      {
        if i > 0 {
          assert ms[i] == ns[i - 1] && ms[j] == ns[j - 1] && cs[i] == bs[i - 1];
        }
      }
    }
  }

  // --------------------------------------------------------- what the frames carry

  function ContentOf(ps: seq<Packet>): seq<seq<byte>> { Payloads(ps, MSG_CONTENT) }

  /** The payloads accepted, and those due. */
  function TakenPayloads(o: Outbox, bs: seq<Batch>): seq<seq<byte>>
    decreases |bs|
  {
    if bs == [] then []
    else ContentOf(bs[0].frames[..Taken(o, bs[0].frames)]) + TakenPayloads(Deliver(o, bs[0]), bs[1..])
  }

  function DuePayloads(bs: seq<Batch>): seq<seq<byte>> {
    if bs == [] then [] else ContentOf(bs[0].frames) + DuePayloads(bs[1..])
  }

  lemma DeliverAccepts(o: Outbox, b: Batch)
    requires Framed(o) && AllFit(b.frames)
    ensures var d := Deliver(o, b);
            Framed(d) && ContentOf(d.accepted) == ContentOf(o.accepted) + ContentOf(b.frames[..Taken(o, b.frames)])
  {
    var s := SendAll(o, b.frames);
    TakenAccepted(o, b.frames);
    PayloadsAppend(o.accepted, b.frames[..Taken(o, b.frames)], MSG_CONTENT);
    if s.ok && b.end {
      SendKeeps(s.box, DUMP_END_PACKET);
      EndIsNoContent(s.box.accepted);
    }
  }

  lemma EndIsNoContent(ps: seq<Packet>)
    ensures ContentOf(ps + [DUMP_END_PACKET]) == ContentOf(ps)
  {
    PayloadsAppend(ps, [DUMP_END_PACKET], MSG_CONTENT);
    assert [DUMP_END_PACKET][1..] == [];
  }

  lemma {:induction false} DeliverAllAccepts(o: Outbox, bs: seq<Batch>)
    requires Framed(o) && forall b :: b in bs ==> AllFit(b.frames)
    ensures var d := DeliverAll(o, bs);
            Framed(d) && ContentOf(d.accepted) == ContentOf(o.accepted) + TakenPayloads(o, bs)
    decreases |bs|
  {
    hide Deliver, Taken, Framed;
    if bs != [] {
      assert bs[0] in bs;
      DeliverAccepts(o, bs[0]);
      DeliverAllAccepts(Deliver(o, bs[0]), bs[1..]);
    }
  }

  lemma {:induction false} NothingTaken(o: Outbox, bs: seq<Batch>)
    requires AllZero(Takes(o, bs))
    ensures TakenPayloads(o, bs) == []
    decreases |bs|
  {
    hide Taken, Deliver;
    if bs != [] {
      var rest := Takes(Deliver(o, bs[0]), bs[1..]);
      assert Takes(o, bs) == [Takes(o, bs)[0]] + rest;
      ShiftZero(Takes(o, bs), rest);
      NothingTaken(Deliver(o, bs[0]), bs[1..]);
      assert bs[0].frames[..0] == [];
    }
  }

  /** Without a gap, what is accepted begins what is due, and is all of it if nothing was cut. */
  lemma {:induction false} GaplessPrefix(o: Outbox, bs: seq<Batch>)
    requires Gapless(Takes(o, bs), bs)
    ensures TakenPayloads(o, bs) <= DuePayloads(bs)
    ensures FirstCut(o, bs).Uncut? ==> TakenPayloads(o, bs) == DuePayloads(bs)
    decreases |bs|
  {
    hide Taken, Deliver;
    if bs != [] {
      var b, rest := bs[0], bs[1..];
      var n, ns := Taken(o, b.frames), Takes(Deliver(o, b), rest);
      assert Takes(o, bs) == [n] + ns && bs == [b] + rest;
      if n < |b.frames| {
        GapAfterCut(n, b, ns, rest);
        NothingTaken(Deliver(o, b), rest);
        PayloadsAppend(b.frames[..n], b.frames[n..], MSG_CONTENT);
        assert b.frames[..n] + b.frames[n..] == b.frames;
        assert ContentOf(b.frames[..n]) + [] <= ContentOf(b.frames) + DuePayloads(rest);
      } else {
        GapAfterWhole(b, ns, rest);
        GaplessPrefix(Deliver(o, b), rest);
        assert b.frames[..n] == b.frames;
      }
    }
  }

  // ---------------------------------------------------------- a tick as batches

  function LiveBatches(chunks: seq<seq<byte>>): seq<Batch> {
    if chunks == [] then [] else LiveBatches(Init(chunks)) + [Batch([Packet(MSG_CONTENT, Last(chunks))], false)]
  }

  function RequestBatches(ps: seq<Packet>, replay: seq<Packet>): seq<Batch> {
    if ps == [] then []
    else (if Asks(ps[0]) then [Batch(replay, ps[0].typ == MSG_DUMP)] else []) + RequestBatches(ps[1..], replay)
  }

  /** The packets a client's reads complete in a tick. */
  function Completed(c: ClientState): seq<Packet> {
    var r := ReadSocket(c.inbox, []);
    if r.ending.Failure? then [] else Parse(c.buf + r.bytes).packets
  }

  /** All the content a tick offers a client: the chunks, if it was attached, then a replay of
      the history for every request. */
  function TickBatches(c: ClientState, io: TickIO): seq<Batch> {
    (if c.attached then LiveBatches(io.chunks) else [])
    + RequestBatches(Completed(c), ReplayPackets(Window(io.output)))
  }

  lemma DeliverOne(o: Outbox, p: Packet)
    ensures Deliver(o, Batch([p], false)) == Send(o, p).box
    ensures forall b: Batch :: DeliverAll(o, [b]) == Deliver(o, b)
  {
    hide Send;
    assert [p][1..] == [] && SendAll(Send(o, p).box, []) == Sent(Send(o, p).box, true);
    forall b: Batch
      ensures DeliverAll(o, [b]) == Deliver(o, b)
    {
      assert [b][1..] == [] && DeliverAll(Deliver(o, b), []) == Deliver(o, b);
    }
  }

  lemma {:induction false} BroadcastDelivers(c: ClientState, chunks: seq<seq<byte>>)
    requires c.attached
    ensures BroadcastAll(c, chunks).out == DeliverAll(c.out, LiveBatches(chunks))
    ensures BroadcastAll(c, chunks).attached
    decreases |chunks|
  {
    hide Send, Deliver;
    if chunks != [] {
      var before, p := Init(chunks), Packet(MSG_CONTENT, Last(chunks));
      BroadcastDelivers(c, before);
      DeliverAllAppend(c.out, LiveBatches(before), [Batch([p], false)]);
      DeliverOne(BroadcastAll(c, before).out, p);
    }
  }

  lemma HandleDelivers(c: ClientState, p: Packet, output: seq<byte>, now: nat)
    ensures Handle(c, p, output, now).out ==
            if Asks(p) then Deliver(c.out, Batch(ReplayPackets(Window(output)), p.typ == MSG_DUMP)) else c.out
  {
    hide Send, SendAll, ReplayPackets, Window;
  }

  lemma {:induction false} HandleAllDelivers(c: ClientState, ps: seq<Packet>, output: seq<byte>, now: nat)
    ensures HandleAll(c, ps, output, now).out ==
            DeliverAll(c.out, RequestBatches(ps, ReplayPackets(Window(output))))
    decreases |ps|
  {
    hide Handle, Deliver, ReplayPackets, Window;
    if ps != [] {
      var e := Handle(c, ps[0], output, now);
      var replay := ReplayPackets(Window(output));
      HandleDelivers(c, ps[0], output, now);
      HandleAllDelivers(e, ps[1..], output, now);
      if Asks(ps[0]) {
        var b := Batch(replay, ps[0].typ == MSG_DUMP);
        assert ([b] + RequestBatches(ps[1..], replay))[1..] == RequestBatches(ps[1..], replay);
      } else {
        assert [] + RequestBatches(ps[1..], replay) == RequestBatches(ps[1..], replay);
      }
    }
  }

  /** Broadcasting and reading is delivering the batches of the tick. */
  lemma ServedDelivers(c: ClientState, io: TickIO)
    ensures Served(c, io).out == DeliverAll(c.out, TickBatches(c, io))
  {
    hide Handle, Deliver, ReplayPackets, Window, Parse;
    var replay := ReplayPackets(Window(io.output));
    var live := if c.attached then LiveBatches(io.chunks) else [];
    var b := BroadcastAll(c, io.chunks);
    BroadcastAllLeaves(c, io.chunks);
    if c.attached {
      BroadcastDelivers(c, io.chunks);
    } else {
      BroadcastToNone(c, io.chunks);
    }
    DeliverAllAppend(c.out, live, RequestBatches(Completed(c), replay));
    var r := ReadSocket(b.inbox, []);
    if !r.ending.Failure? {
      var parsed := Parse(b.buf + r.bytes);
      var d := b.(inbox := r.inbox, buf := Leftover(parsed), fed := b.fed + r.bytes);
      HandleAllDelivers(d, parsed.packets, io.output, io.dumpAt);
    }
  }

  lemma {:induction false} BroadcastToNone(c: ClientState, chunks: seq<seq<byte>>)
    requires !c.attached
    ensures BroadcastAll(c, chunks) == c
    decreases |chunks|
  {
    if chunks != [] {
      BroadcastToNone(c, Init(chunks));
    }
  }

  lemma {:induction false} LiveShape(chunks: seq<seq<byte>>)
    ensures NoneEmpty(LiveBatches(chunks))
    ensures (forall ch :: ch in chunks ==> |ch| <= MAX_PAYLOAD) ==>
              forall b :: b in LiveBatches(chunks) ==> AllFit(b.frames)
    ensures DuePayloads(LiveBatches(chunks)) == chunks
    ensures |LiveBatches(chunks)| == |chunks|
    decreases |chunks|
  {
    if chunks != [] {
      var p := Packet(MSG_CONTENT, Last(chunks));
      LiveShape(Init(chunks));
      DueAppend(LiveBatches(Init(chunks)), [Batch([p], false)]);
      DueOne(p);
      assert Init(chunks) + [Last(chunks)] == chunks;
    }
  }

  lemma DueOne(p: Packet)
    requires p.typ == MSG_CONTENT
    ensures DuePayloads([Batch([p], false)]) == [p.payload]
  {
    assert [p][1..] == [] && Payloads([], MSG_CONTENT) == [] && Payloads([p], MSG_CONTENT) == [p.payload];
    assert [Batch([p], false)][1..] == [];
  }

  lemma {:induction false} RequestShape(ps: seq<Packet>, replay: seq<Packet>)
    ensures forall b :: b in RequestBatches(ps, replay) ==> b.frames == replay
  {
    if ps != [] {
      RequestShape(ps[1..], replay);
    }
  }

  lemma {:induction false} DueAppend(a: seq<Batch>, b: seq<Batch>)
    ensures DuePayloads(a + b) == DuePayloads(a) + DuePayloads(b)
  {
    if a == [] {
      assert a + b == b;
    } else {
      assert (a + b)[1..] == a[1..] + b;
      DueAppend(a[1..], b);
    }
  }

  /** Everything a tick offers fits a packet; nothing is offered without output. */
  lemma TickShape(c: ClientState, io: TickIO)
    requires forall ch :: ch in io.chunks ==> |ch| <= MAX_PAYLOAD
    requires io.output == [] ==> io.chunks == []
    ensures var bs := TickBatches(c, io);
            && (forall b :: b in bs ==> AllFit(b.frames))
            && (NoneEmpty(bs) || AllEmpty(bs))
  {
    var replay := ReplayPackets(Window(io.output));
    LiveShape(io.chunks);
    RequestShape(Completed(c), replay);
    ReplayPacketsMake(Window(io.output));
    NoReplay(io.output);
  }

  lemma NoReplay(output: seq<byte>)
    ensures ReplayPackets(Window(output)) == [] <==> output == []
  {
  }

  // ----------------------------------------------------------- the exact conditions

  /** What a tick sends a client has a gap exactly when, after the first chunk or replay to be
      cut short, a later one finds room for its first frame in the queue left there. */
  lemma TickGapExact(c: ClientState, io: TickIO)
    requires forall ch :: ch in io.chunks ==> |ch| <= MAX_PAYLOAD
    requires io.output == [] ==> io.chunks == []
    ensures var bs := TickBatches(c, io);
            var cut := FirstCut(c.out, bs);
            Gapless(Takes(c.out, bs), bs) <==> cut.Uncut? || NothingFits(cut.box, cut.later)
  {
    hide TickBatches, Gapless, Takes, FirstCut, NothingFits;
    TickShape(c, io);
    GapExact(c.out, TickBatches(c, io));
  }

  /** The chunks accepted of those broadcast. */
  function TakenChunks(o: Outbox, chunks: seq<seq<byte>>): seq<seq<byte>>
    decreases |chunks|
  {
    if chunks == [] then []
    else
      var p := Packet(MSG_CONTENT, chunks[0]);
      if Overflows(o, p) then TakenChunks(o, chunks[1..])
      else [chunks[0]] + TakenChunks(Send(o, p).box, chunks[1..])
  }

  datatype Refusal = NoRefusal | Refused(box: Outbox, later: seq<seq<byte>>)

  /** The first chunk not to fit: the queue it meets, and the chunks after it. */
  function FirstRefusal(o: Outbox, chunks: seq<seq<byte>>): Refusal
    decreases |chunks|
  {
    if chunks == [] then NoRefusal
    else
      var p := Packet(MSG_CONTENT, chunks[0]);
      if Overflows(o, p) then Refused(o, chunks[1..]) else FirstRefusal(Send(o, p).box, chunks[1..])
  }

  ghost predicate NoChunkFits(o: Outbox, chunks: seq<seq<byte>>) {
    forall ch :: ch in chunks ==> Overflows(o, Packet(MSG_CONTENT, ch))
  }

  ghost predicate Begins(taken: seq<seq<byte>>, chunks: seq<seq<byte>>) {
    exists k :: 0 <= k <= |chunks| && taken == chunks[..k]
  }

  /** Once one chunk has been refused, what is accepted of the rest is nothing, or begins with a
      chunk shorter than the refused one. */
  lemma {:induction false} AfterRefusal(o: Outbox, refused: seq<byte>, chunks: seq<seq<byte>>)
    requires Overflows(o, Packet(MSG_CONTENT, refused))
    ensures if NoChunkFits(o, chunks) then TakenChunks(o, chunks) == []
            else TakenChunks(o, chunks) != [] && |TakenChunks(o, chunks)[0]| < |refused|
    decreases |chunks|
  {
    hide Send;
    if chunks != [] {
      assert chunks[0] in chunks && forall ch :: ch in chunks[1..] ==> ch in chunks;
      if Overflows(o, Packet(MSG_CONTENT, chunks[0])) {
        AfterRefusal(o, refused, chunks[1..]);
        assert chunks == [chunks[0]] + chunks[1..];
      }
    }
  }

  lemma BeginsCons(x: seq<byte>, taken: seq<seq<byte>>, chunks: seq<seq<byte>>)
    ensures Begins([x] + taken, [x] + chunks) <==> Begins(taken, chunks)
  {
    if Begins(taken, chunks) {
      var k :| 0 <= k <= |chunks| && taken == chunks[..k];
      assert ([x] + chunks)[..k + 1] == [x] + taken;
    }
    if Begins([x] + taken, [x] + chunks) {
      var k :| 0 <= k <= |[x] + chunks| && [x] + taken == ([x] + chunks)[..k];
      assert ([x] + taken)[1..] == taken && ([x] + chunks)[..k][1..] == chunks[..k - 1];
    }
  }

  lemma NotBegins(taken: seq<seq<byte>>, chunks: seq<seq<byte>>)
    requires taken != [] && chunks != [] && taken[0] != chunks[0]
    ensures !Begins(taken, chunks)
  {
  }

  lemma {:induction false} TakenBegins(o: Outbox, chunks: seq<seq<byte>>)
    ensures var r := FirstRefusal(o, chunks);
            Begins(TakenChunks(o, chunks), chunks) <==> r.NoRefusal? || NoChunkFits(r.box, r.later)
    decreases |chunks|
  {
    hide Send, NoChunkFits;
    if chunks == [] {
      assert TakenChunks(o, chunks) == chunks[..0];
    } else {
      var ch, rest := chunks[0], chunks[1..];
      var p := Packet(MSG_CONTENT, ch);
      assert chunks == [ch] + rest;
      if Overflows(o, p) {
        AfterRefusal(o, ch, rest);
        var taken := TakenChunks(o, rest);
        if NoChunkFits(o, rest) {
          assert taken == chunks[..0];
        } else {
          NotBegins(taken, chunks);
        }
      } else {
        TakenBegins(Send(o, p).box, rest);
        BeginsCons(ch, TakenChunks(Send(o, p).box, rest), rest);
      }
    }
  }

  lemma {:induction false} BroadcastFront(c: ClientState, chunks: seq<seq<byte>>)
    requires chunks != []
    ensures BroadcastAll(c, chunks) == BroadcastAll(Broadcast(c, chunks[0]), chunks[1..])
    decreases |chunks|
  {
    hide Broadcast;
    if |chunks| == 1 {
      assert Init(chunks) == [] && chunks[1..] == [];
    } else {
      BroadcastFront(c, Init(chunks));
      assert Init(chunks)[1..] == Init(chunks[1..]) && Last(chunks) == Last(chunks[1..]);
    }
  }

  lemma {:induction false} BroadcastTakes(c: ClientState, chunks: seq<seq<byte>>)
    requires Framed(c.out) && c.attached && forall ch :: ch in chunks ==> |ch| <= MAX_PAYLOAD
    ensures ContentOf(BroadcastAll(c, chunks).out.accepted)
            == ContentOf(c.out.accepted) + TakenChunks(c.out, chunks)
    decreases |chunks|
  {
    hide Send, Framed, Overflows, Broadcast, ContentOf;
    if chunks != [] {
      assert chunks[0] in chunks && forall ch :: ch in chunks[1..] ==> ch in chunks;
      BroadcastOne(c, chunks[0]);
      BroadcastFront(c, chunks);
      BroadcastTakes(Broadcast(c, chunks[0]), chunks[1..]);
    }
  }

  lemma BroadcastOne(c: ClientState, ch: seq<byte>)
    requires Framed(c.out) && c.attached && |ch| <= MAX_PAYLOAD
    ensures var d, p := Broadcast(c, ch), Packet(MSG_CONTENT, ch);
            && Framed(d.out) && d.attached
            && d.out == (if Overflows(c.out, p) then c.out else Send(c.out, p).box)
            && ContentOf(d.out.accepted) == ContentOf(c.out.accepted) + if Overflows(c.out, p) then [] else [ch]
  {
    hide Send, Framed, Overflows;
    var p := Packet(MSG_CONTENT, ch);
    SendKeeps(c.out, p);
    SendStops(c.out, p);
    PayloadsAppend(c.out.accepted, [p], MSG_CONTENT);
    assert [p][1..] == [] && ContentOf([p]) == [ch];
  }

  lemma SendStops(o: Outbox, p: Packet)
    ensures Overflows(o, p) ==> Send(o, p) == Sent(o, false)
  {
  }

  /** Broadcasting, to the letter: the chunks an attached client is sent in a tick are the
      first so many of those read, exactly when no chunk after the first that overflows its
      queue fits the queue left there. */
  lemma BroadcastGapExact(c: ClientState, chunks: seq<seq<byte>>)
    requires Framed(c.out) && c.attached && forall ch :: ch in chunks ==> |ch| <= MAX_PAYLOAD
    ensures var r := FirstRefusal(c.out, chunks);
            var before, after := ContentOf(c.out.accepted), ContentOf(BroadcastAll(c, chunks).out.accepted);
            (exists k :: 0 <= k <= |chunks| && after == before + chunks[..k])
            <==> r.NoRefusal? || forall ch :: ch in r.later ==> |r.box.queue| + 8 + |ch| > SEND_QUEUE_CAP
  {
    hide FirstRefusal, TakenChunks, Framed, BroadcastAll;
    var taken := TakenChunks(c.out, chunks);
    BroadcastTakes(c, chunks);
    TakenBegins(c.out, chunks);
    var before := ContentOf(c.out.accepted);
    forall k | 0 <= k <= |chunks|
      ensures before + taken == before + chunks[..k] <==> taken == chunks[..k]
    {
      SamePrefix(before, taken, chunks[..k]);
    }
  }

  lemma SamePrefix<T>(a: seq<T>, b: seq<T>, c: seq<T>)
    ensures a + b == a + c <==> b == c
  {
    if a + b == a + c {
      assert b == (a + b)[|a|..] && c == (a + c)[|a|..];
    }
  }

  /** A replay cut short by its queue, not its socket, leaves no room for another: its first
      frame is its longest. So replays alone have a gap only after a socket error. */
  lemma ReplayCutByQueue(o: Outbox, window: seq<byte>)
    requires var ps := ReplayPackets(window); Taken(o, ps) < |ps|
    ensures var ps := ReplayPackets(window);
            SendAll(o, ps).box.failed || Overflows(SendAll(o, ps).box, ps[0])
  {
    var ps := ReplayPackets(window);
    FirstIsLongest(window);
    CutBelow(o, ps, |Encode(ps[0])|);
  }

  lemma {:induction false} FirstIsLongest(window: seq<byte>)
    ensures forall p :: p in ReplayPackets(window) ==>
              |p.payload| <= Min(|window|, MAX_PAYLOAD) && |ReplayPackets(window)[0].payload| == Min(|window|, MAX_PAYLOAD)
    decreases |window|
  {
    if window != [] {
      FirstIsLongest(window[Min(|window|, MAX_PAYLOAD)..]);
    }
  }

  lemma {:induction false} CutBelow(o: Outbox, ps: seq<Packet>, n: nat)
    requires (forall p :: p in ps ==> |Encode(p)| <= n) && Taken(o, ps) < |ps|
    ensures SendAll(o, ps).box.failed || |SendAll(o, ps).box.queue| + n > SEND_QUEUE_CAP
    decreases |ps|
  {
    hide Flush;
    var s := Send(o, ps[0]);
    assert ps[0] in ps && forall p :: p in ps[1..] ==> p in ps;
    if s.ok {
      CutBelow(s.box, ps[1..], n);
    } else if !Overflows(o, ps[0]) {
      FlushMoves(Enqueue(o, ps[0]));
    }
  }

  // -------------------------------------------------------------- what was due

  lemma HandleStamps(c: ClientState, p: Packet, output: seq<byte>, now: nat)
    ensures var d := Handle(c, p, output, now);
            d.replays == c.replays + if Asks(p) then [Replay(|output|, d.attached)] else []
  {
  }

  lemma HandleLive(c: ClientState, p: Packet, output: seq<byte>, now: nat)
    requires c.attached == LiveNow(c.replays)
    ensures var d := Handle(c, p, output, now); d.attached == LiveNow(d.replays)
  {
  }

  /** A request is due a window. */
  lemma HandleDue(c: ClientState, p: Packet, output: seq<byte>, now: nat)
    requires Ordered(|output|, c.replays) && c.attached == LiveNow(c.replays)
    ensures var d := Handle(c, p, output, now);
            && Ordered(|output|, d.replays) && d.attached == LiveNow(d.replays)
            && Stream(output, d.replays) == Stream(output, c.replays) + if Asks(p) then Window(output) else []
  {
    hide Handle, Stream, Ordered, Window;
    HandleStamps(c, p, output, now);
    HandleLive(c, p, output, now);
    StreamReplays(output, c.replays, Handle(c, p, output, now).attached);
    assert c.replays + [] == c.replays;
  }

  /** The requests processed in a tick are due a window each. */
  lemma {:induction false} RequestsDue(c: ClientState, ps: seq<Packet>, output: seq<byte>, now: nat)
    requires Ordered(|output|, c.replays) && c.attached == LiveNow(c.replays)
    ensures var d := HandleAll(c, ps, output, now);
            && Ordered(|output|, d.replays)
            && Stream(output, d.replays)
               == Stream(output, c.replays) + Flatten(DuePayloads(RequestBatches(ps, ReplayPackets(Window(output)))))
    decreases |ps|
  {
    hide Handle, Stream, Ordered, ReplayPackets, Window, RequestBatches, DuePayloads, Flatten, LiveNow;
    if ps == [] {
      NoRequests(ReplayPackets(Window(output)));
      assert Stream(output, c.replays) + [] == Stream(output, c.replays);
    } else {
      HandleDue(c, ps[0], output, now);
      RequestsDue(Handle(c, ps[0], output, now), ps[1..], output, now);
      NextRequestDue(ps, output);
    }
  }

  lemma NextRequestDue(ps: seq<Packet>, output: seq<byte>)
    requires ps != []
    ensures var replay := ReplayPackets(Window(output));
            Flatten(DuePayloads(RequestBatches(ps, replay)))
            == (if Asks(ps[0]) then Window(output) else []) + Flatten(DuePayloads(RequestBatches(ps[1..], replay)))
  {
    hide RequestBatches, DuePayloads, ReplayPackets, Window;
    var replay := ReplayPackets(Window(output));
    NextDue(ps, replay);
    ReplayPacketsMake(Window(output));
    FlattenAppend(if Asks(ps[0]) then ContentOf(replay) else [], DuePayloads(RequestBatches(ps[1..], replay)));
  }

  lemma NextDue(ps: seq<Packet>, replay: seq<Packet>)
    requires ps != []
    ensures DuePayloads(RequestBatches(ps, replay))
            == (if Asks(ps[0]) then ContentOf(replay) else []) + DuePayloads(RequestBatches(ps[1..], replay))
  {
    var b := Batch(replay, ps[0].typ == MSG_DUMP);
    var rest := RequestBatches(ps[1..], replay);
    assert ([b] + rest)[1..] == rest && [] + rest == rest;
  }

  lemma LiveDue(c: ClientState, chunks: seq<seq<byte>>, requests: seq<Batch>)
    ensures var live := if c.attached then LiveBatches(chunks) else [];
            Flatten(DuePayloads(live + requests))
            == (if c.attached then Flatten(chunks) else []) + Flatten(DuePayloads(requests))
  {
    var live := if c.attached then LiveBatches(chunks) else [];
    LiveShape(chunks);
    DueAppend(live, requests);
    FlattenAppend(DuePayloads(live), DuePayloads(requests));
  }

  /** The batches of a tick carry what the tick adds to the output due. */
  lemma TickDue(c: ClientState, io: TickIO, output: seq<byte>)
    requires Ordered(|output|, c.replays) && c.attached == LiveNow(c.replays)
    requires io.output == output + Flatten(io.chunks)
    ensures var d := Served(c, io);
            && Ordered(|io.output|, d.replays)
            && Stream(io.output, d.replays)
               == Stream(output, c.replays) + Flatten(DuePayloads(TickBatches(c, io)))
  {
    hide HandleAll, Stream, Ordered, ReplayPackets, Window, Parse, ReadSocket, DuePayloads, BroadcastAll;
    var b := BroadcastAll(c, io.chunks);
    BroadcastAllLeaves(c, io.chunks);
    StreamGrows(output, Flatten(io.chunks), c.replays);
    var requests := RequestBatches(Completed(c), ReplayPackets(Window(io.output)));
    LiveDue(c, io.chunks, requests);
    var live := if c.attached then Flatten(io.chunks) else [];
    assert (Stream(output, c.replays) + live) + Flatten(DuePayloads(requests))
        == Stream(output, c.replays) + (live + Flatten(DuePayloads(requests)));
    var r := ReadSocket(b.inbox, []);
    if r.ending.Failure? {
      NoRequests(ReplayPackets(Window(io.output)));
    } else {
      var parsed := Parse(b.buf + r.bytes);
      var d := b.(inbox := r.inbox, buf := Leftover(parsed), fed := b.fed + r.bytes);
      RequestsDue(d, parsed.packets, io.output, io.dumpAt);
    }
  }

  lemma NoRequests(replay: seq<Packet>)
    ensures Flatten(DuePayloads(RequestBatches([], replay))) == []
  {
  }
}
