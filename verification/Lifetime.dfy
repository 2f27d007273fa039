/** How clients come and go: who joins in a tick, who leaves in it and why, and when the server
    itself is done. */
module Lifetime {
  import opened Protocol
  import opened Codec
  import opened Sending
  import opened Session
  import opened Invariant
  import opened Runs
  import opened Delivery
  import opened Theorems

  // -------------------------------------------------------------------- joining

  /** The j-th answer to `accept` brings a client: a connection made non-blocking, with nothing
      but connections before it. */
  ghost predicate Joins(accepts: seq<Accepting>, j: nat) {
    && j < |accepts| && accepts[j].Connection? && accepts[j].nonblocking
    && forall i :: 0 <= i < j ==> accepts[i].Connection?
  }

  /** Indices in order. */
  ghost predicate Rising(at: seq<nat>) { forall i, j :: 0 <= i < j < |at| ==> at[i] < at[j] }

  /** The clients that join are, one for one and in order, the answers that bring one. */
  lemma {:induction false} Arrivals(accepts: seq<Accepting>, id: nat, pid: nat) returns (at: seq<nat>)
    ensures var news := Newcomers(accepts, id, pid);
            && |at| == |news| && Rising(at) && (forall j :: Joins(accepts, j) <==> j in at)
            && forall i :: 0 <= i < |at| ==>
                  && at[i] < |accepts| && accepts[at[i]].Connection?
                  && news[i] == Newcomer(id + i, pid, accepts[at[i]].inbox, accepts[at[i]].writes)
    decreases |accepts|
  {
    hide Newcomer, Joins;
    if accepts == [] || accepts[0].NoConnection? {
      NoneJoins(accepts);
      return [];
    }
    var joins := accepts[0].nonblocking;
    var rest := Arrivals(accepts[1..], if joins then id + 1 else id, pid);
    at := (if joins then [0] else []) + seq(|rest|, i requires 0 <= i < |rest| => rest[i] + 1);
    ShiftJoins(accepts, rest, at);
  }

  lemma NoneJoins(accepts: seq<Accepting>)
    requires accepts == [] || accepts[0].NoConnection?
    ensures forall j :: !Joins(accepts, j)
  {
  }

  lemma ShiftJoins(accepts: seq<Accepting>, rest: seq<nat>, at: seq<nat>)
    requires accepts != [] && accepts[0].Connection?
    requires forall j :: Joins(accepts[1..], j) <==> j in rest
    requires at == (if accepts[0].nonblocking then [0] else []) + seq(|rest|, i requires 0 <= i < |rest| => rest[i] + 1)
    ensures forall j :: Joins(accepts, j) <==> j in at
  {
    forall j: nat
      ensures Joins(accepts, j) <==> j in at
    {
      if j > 0 {
        assert Joins(accepts, j) <==> Joins(accepts[1..], j - 1) by {
          assert forall i :: 0 < i < |accepts| ==> accepts[i] == accepts[1..][i - 1];
          if Joins(accepts[1..], j - 1) {
            forall i | 0 < i < j
              ensures accepts[i].Connection?
            {
              assert accepts[1..][i - 1].Connection?;
            }
          }
        }
        var n := if accepts[0].nonblocking then 1 else 0;
        if j - 1 in rest {
          var i :| 0 <= i < |rest| && rest[i] == j - 1;
          assert at[n + i] == j;
        }
        if j in at {
          var i :| 0 <= i < |at| && at[i] == j;
          assert i >= n && rest[i - n] == j - 1;
        }
      } else if accepts[0].nonblocking {
        assert at[0] == 0;
      }
    }
  }

  lemma JoinsIff(accepts: seq<Accepting>, id: nat, pid: nat)
    ensures Newcomers(accepts, id, pid) != [] <==> exists j :: Joins(accepts, j)
  {
    hide Joins;
    var at := Arrivals(accepts, id, pid);
    if at != [] {
      assert at[0] in at;
    }
  }

  /** Everyone who takes part in a tick was connected before or joins in it. A client that joins is
      named in order of arrival, has sent nothing, and finds the server's process id on its wire:
      eight bytes, from which any process id is read back. */
  lemma WhoJoins(s: ServerState, t: Tick) returns (at: seq<nat>)
    ensures Rising(at) && forall j :: Joins(t.accepts, j) <==> j in at
    ensures var cs, n := Present(s, t), |s.clients|;
            && |cs| == n + |at| && cs[..n] == s.clients && Step(s, t).nextId == s.nextId + |at|
            && forall i :: 0 <= i < |at| ==>
                  && at[i] < |t.accepts| && t.accepts[at[i]].Connection?
                  && cs[n + i].id == s.nextId + i && Fresh(cs[n + i], s.pid)
                  && cs[n + i].inbox == t.accepts[at[i]].inbox && cs[n + i].out.writes == t.accepts[at[i]].writes
  {
    hide Newcomer, Fresh, Ticked, NewOps;
    at := Arrivals(t.accepts, s.nextId, s.pid);
    forall i | 0 <= i < |at|
      ensures var c := Present(s, t)[|s.clients| + i];
              && c.id == s.nextId + i && Fresh(c, s.pid)
              && c.inbox == t.accepts[at[i]].inbox && c.out.writes == t.accepts[at[i]].writes
    {
      NewcomerFresh(s.nextId + i, s.pid, t.accepts[at[i]].inbox, t.accepts[at[i]].writes);
    }
  }

  ghost predicate Fresh(c: ClientState, pid: nat) {
    && !c.attached && !c.disconnected && c.closeAt.None? && c.buf == [] && c.out.queue == []
    && c.fed == [] && c.decoded == [] && c.replays == [] && c.ops == []
    && |c.out.wire| == 16 && c.out.wire[..8] == [5, 0, 0, 0, 8, 0, 0, 0]
    && (pid < Radix(8) ==> Value(c.out.wire[8..]) == pid)
  }

  lemma NewcomerFresh(id: nat, pid: nat, inbox: seq<ReadResult>, writes: seq<Write>)
    ensures var c := Newcomer(id, pid, inbox, writes);
            Fresh(c, pid) && c.id == id && c.inbox == inbox && c.out.writes == writes
  {
    hide LittleEndian, Radix, U32Bytes;
    var p := PidPacket(pid);
    SmallInteger(5);
    SmallInteger(8);
    assert Encode(p)[..8] == [5, 0, 0, 0, 8, 0, 0, 0] && Encode(p)[8..] == p.payload;
    if pid < Radix(8) {
      ValueOfLittleEndian(pid, 8);
    }
  }

  // -------------------------------------------------------------------- leaving

  /** The socket comes to its end of file, or to an error, before it has nothing more to read. */
  ghost predicate HangsUp(inbox: seq<ReadResult>) {
    exists j :: EndsAt(inbox, j)
  }

  ghost predicate EndsAt(inbox: seq<ReadResult>, j: nat) {
    && j < |inbox| && (inbox[j] == Data([]) || inbox[j].Broken?)
    && forall i :: 0 <= i < j ==> !Stops(inbox[i])
  }

  lemma {:induction false} EndingIs(inbox: seq<ReadResult>, got: seq<byte>)
    ensures !ReadSocket(inbox, got).ending.Blocked? <==> HangsUp(inbox)
  {
    ReadTakesAll(inbox, got);
    var r := ReadSocket(inbox, got);
    var k := |inbox| - |r.inbox|;
    if !r.ending.Blocked? {
      assert EndsAt(inbox, k - 1);
    }
  }

  /** Every batch is sent without an error. */
  function AllSent(o: Outbox, bs: seq<Batch>): bool
    decreases |bs|
  {
    bs == [] || (SendAll(o, bs[0].frames).ok && AllSent(Deliver(o, bs[0]), bs[1..]))
  }

  /** That is, none is cut short, unless the socket has failed. */
  lemma {:induction false} AllSentMeans(o: Outbox, bs: seq<Batch>)
    requires Framed(o) && forall b :: b in bs ==> AllFit(b.frames)
    ensures AllSent(o, bs) ==> FirstCut(o, bs).Uncut?
    ensures !AllSent(o, bs) ==> FirstCut(o, bs).Short? || DeliverAll(o, bs).failed
    decreases |bs|
  {
    hide Framed, SendAll, Taken, AllFit;
    if bs != [] {
      assert bs[0] in bs;
      TakenAccepted(o, bs[0].frames);
      DeliverAccepts(o, bs[0]);
      CutOrFailed(o, bs[0]);
      if SendAll(o, bs[0].frames).ok {
        AllSentMeans(Deliver(o, bs[0]), bs[1..]);
      } else if Deliver(o, bs[0]).failed {
        DeliverAllFails(Deliver(o, bs[0]), bs[1..]);
      }
    }
  }

  lemma {:induction false} SendAllFails(o: Outbox, ps: seq<Packet>)
    requires AllFit(ps) && Framed(o)
    ensures var s := SendAll(o, ps);
            && Framed(s.box) && (o.failed ==> s.box.failed)
            && (!s.ok ==> s.box.failed || Taken(o, ps) < |ps|)
    decreases |ps|
  {
    hide Send, Framed;
    if ps != [] {
      SendKeeps(o, ps[0]);
      if Send(o, ps[0]).ok {
        SendAllFails(Send(o, ps[0]).box, ps[1..]);
      }
    }
  }

  lemma CutOrFailed(o: Outbox, b: Batch)
    requires AllFit(b.frames) && Framed(o)
    ensures var s := SendAll(o, b.frames);
            && (o.failed ==> Deliver(o, b).failed)
            && (!s.ok ==> Deliver(o, b).failed || Taken(o, b.frames) < |b.frames|)
  {
    hide SendAll, Taken, Send, Framed;
    SendAllFails(o, b.frames);
    SendKeeps(SendAll(o, b.frames).box, DUMP_END_PACKET);
  }

  lemma {:induction false} DeliverAllFails(o: Outbox, bs: seq<Batch>)
    requires Framed(o) && o.failed && forall b :: b in bs ==> AllFit(b.frames)
    ensures DeliverAll(o, bs).failed
    decreases |bs|
  {
    hide Deliver, Framed, AllFit;
    if bs != [] {
      assert bs[0] in bs;
      CutOrFailed(o, bs[0]);
      DeliverAccepts(o, bs[0]);
      DeliverAllFails(Deliver(o, bs[0]), bs[1..]);
    }
  }

  lemma {:induction false} AllSentAppend(o: Outbox, a: seq<Batch>, b: seq<Batch>)
    ensures AllSent(o, a + b) <==> AllSent(o, a) && AllSent(DeliverAll(o, a), b)
    decreases |a|
  {
    hide Deliver, SendAll;
    if a == [] {
      assert a + b == b;
    } else {
      assert (a + b)[1..] == a[1..] + b && (a + b)[0] == a[0];
      AllSentAppend(Deliver(o, a[0]), a[1..], b);
    }
  }

  /** A request to leave. */
  predicate Leaves(p: Packet) { p.typ == MSG_DETACH || p.typ == MSG_EXIT }

  /** The packets processed between two states of a client. */
  function Since(c: ClientState, d: ClientState): seq<Packet> {
    if c.decoded <= d.decoded then d.decoded[|c.decoded|..] else []
  }

  ghost predicate AsksToLeave(ps: seq<Packet>) { exists p :: p in ps && Leaves(p) }

  lemma {:induction false} BroadcastLeaves(c: ClientState, chunks: seq<seq<byte>>)
    ensures var d := BroadcastAll(c, chunks);
            d.disconnected <==> c.disconnected || (c.attached && !AllSent(c.out, LiveBatches(chunks)))
    decreases |chunks|
  {
    hide Send, Deliver;
    if chunks != [] {
      var before, p := Init(chunks), Packet(MSG_CONTENT, Last(chunks));
      BroadcastLeaves(c, before);
      BroadcastAllLeaves(c, before);
      if c.attached {
        BroadcastDelivers(c, before);
        AllSentAppend(c.out, LiveBatches(before), [Batch([p], false)]);
        OneSent(DeliverAll(c.out, LiveBatches(before)), p);
      }
    }
  }

  lemma OneSent(o: Outbox, p: Packet)
    ensures AllSent(o, [Batch([p], false)]) <==> Send(o, p).ok
  {
    hide Send;
    assert [p][1..] == [] && [Batch([p], false)][1..] == [];
    assert SendAll(o, [p]).ok <==> Send(o, p).ok;
    assert AllSent(Deliver(o, Batch([p], false)), []);
  }

  lemma HandleLeaves(c: ClientState, p: Packet, output: seq<byte>, now: nat)
    ensures var d := Handle(c, p, output, now);
            d.disconnected <==> c.disconnected || Leaves(p)
                                || (Asks(p) && !SendAll(c.out, ReplayPackets(Window(output))).ok)
  {
    hide SendAll, Send, ReplayPackets, Window, OpOf, ReadU32;
  }

  lemma {:induction false} HandleAllLeaves(c: ClientState, ps: seq<Packet>, output: seq<byte>, now: nat)
    ensures var d := HandleAll(c, ps, output, now);
            d.disconnected <==> c.disconnected || AsksToLeave(ps)
                                || !AllSent(c.out, RequestBatches(ps, ReplayPackets(Window(output))))
    decreases |ps|
  {
    hide Handle, Deliver, ReplayPackets, Window, SendAll, Leaves;
    if ps != [] {
      var replay := ReplayPackets(Window(output));
      HandleDelivers(c, ps[0], output, now);
      HandleLeaves(c, ps[0], output, now);
      HandleAllLeaves(Handle(c, ps[0], output, now), ps[1..], output, now);
      assert ps == [ps[0]] + ps[1..];
      assert AsksToLeave(ps) <==> Leaves(ps[0]) || AsksToLeave(ps[1..]);
      if Asks(ps[0]) {
        var b := Batch(replay, ps[0].typ == MSG_DUMP);
        assert ([b] + RequestBatches(ps[1..], replay))[1..] == RequestBatches(ps[1..], replay);
      } else {
        assert [] + RequestBatches(ps[1..], replay) == RequestBatches(ps[1..], replay);
      }
    }
  }

  /** What has a client disconnected by the time its packets are processed: its socket hung up, it
      asked to leave, or something it was to be sent met an error. */
  lemma ServedLeaves(c: ClientState, io: TickIO)
    requires !c.disconnected
    ensures Served(c, io).disconnected
            <==> HangsUp(c.inbox) || AsksToLeave(Completed(c)) || !AllSent(c.out, TickBatches(c, io))
  {
    hide Handle, Deliver, ReplayPackets, Window, Parse, Send, AllSent, HangsUp, AsksToLeave, LiveBatches;
    var replay := ReplayPackets(Window(io.output));
    var live := if c.attached then LiveBatches(io.chunks) else [];
    var b := BroadcastAll(c, io.chunks);
    BroadcastAllLeaves(c, io.chunks);
    BroadcastLeaves(c, io.chunks);
    NothingSent(c.out);
    if c.attached {
      BroadcastDelivers(c, io.chunks);
    } else {
      BroadcastToNone(c, io.chunks);
    }
    AllSentAppend(c.out, live, RequestBatches(Completed(c), replay));
    EndingIs(c.inbox, []);
    var r := ReadSocket(b.inbox, []);
    if !r.ending.Failure? {
      var parsed := Parse(b.buf + r.bytes);
      var d := b.(inbox := r.inbox, buf := Leftover(parsed), fed := b.fed + r.bytes);
      HandleAllLeaves(d, parsed.packets, io.output, io.dumpAt);
    }
  }

  lemma NothingSent(o: Outbox)
    ensures AllSent(o, []) && DeliverAll(o, []) == o
  {
  }

  lemma ServedDecodes(c: ClientState, io: TickIO)
    ensures Served(c, io).decoded == c.decoded + Completed(c)
  {
    hide Handle, Parse, ReadSocket;
    var b := BroadcastAll(c, io.chunks);
    BroadcastAllLeaves(c, io.chunks);
    var r := ReadSocket(b.inbox, []);
    if !r.ending.Failure? {
      var parsed := Parse(b.buf + r.bytes);
      var d := b.(inbox := r.inbox, buf := Leftover(parsed), fed := b.fed + r.bytes);
      HandleAllDecodes(d, parsed.packets, io.output, io.dumpAt);
    }
  }

  /** What the rest of the tick leaves alone, and that it leaves out whoever has been dropped. */
  lemma RestOfTick(c: ClientState, io: TickIO)
    ensures var d, e := Served(c, io), ClientTick(c, io);
            && e == d.(out := e.out, disconnected := e.disconnected, closeAt := e.closeAt)
            && (d.disconnected ==> e == d)
            && (d.closeAt.Some? ==> e.closeAt == d.closeAt)
            && (d.closeAt.None? && !d.disconnected ==> e.closeAt == if io.exit.Some? then Some(io.exitAt) else None)
  {
    hide Served, Flush, Send;
  }

  /** Who is dropped while being served: exactly those whose socket came to its end or failed, who
      asked to leave, or who could not be sent everything without an error. Their wire ends there,
      with no exit status and nothing flushed. */
  lemma WhoLeaves(s: ServerState, t: Tick, i: nat)
    requires Good(s) && i < |Present(s, t)|
    ensures var c, d, io := Present(s, t)[i], Ticked(s, t)[i], IO(s, t, i);
            var leaves := HangsUp(c.inbox) || AsksToLeave(Since(c, d)) || !AllSent(c.out, TickBatches(c, io));
            && c.decoded <= d.decoded
            && (leaves ==> d.disconnected && d.out == DeliverAll(c.out, TickBatches(c, io)))
            && (!leaves ==> !Served(c, io).disconnected)
  {
    hide ClientInv, ClientTick, Continues, Served, HangsUp, AsksToLeave, AllSent, TickBatches, Present, Ticked, Good,
      Completed, DeliverAll;
    PresentGood(s, t);
    TickedKeeps(s, t, i);
    var c, io := Present(s, t)[i], IO(s, t, i);
    ServedLeaves(c, io);
    ServedDecodes(c, io);
    ServedDelivers(c, io);
    RestOfTick(c, io);
    assert (c.decoded + Completed(c))[|c.decoded|..] == Completed(c);
  }

  /** A client that is still connected then is dropped by its flush exactly when the last write the
      flush makes fails or takes nothing; that its exit status finds no room does not drop it. */
  lemma WhoFlushes(s: ServerState, t: Tick, i: nat)
    requires i < |Present(s, t)|
    ensures var d := Served(Present(s, t)[i], IO(s, t, i));
            var e := ExitStep(d, IO(s, t, i));
            var f := FlushStep(e);
            !d.disconnected ==>
              (f.disconnected <==> LastTaken(e.out, f.out).Some? && Fatal(LastTaken(e.out, f.out).value))
  {
    hide Served, Flush, Send, LastTaken, Present;
    FlushStops(ExitStep(Served(Present(s, t)[i], IO(s, t, i)), IO(s, t, i)).out);
  }

  // -------------------------------------------------------------------- closing

  ghost predicate AsksForDump(ps: seq<Packet>) { exists p :: p in ps && p.typ == MSG_DUMP }

  lemma HandleCloses(c: ClientState, p: Packet, output: seq<byte>, now: nat)
    ensures Handle(c, p, output, now).closeAt
            == if p.typ == MSG_DUMP && c.closeAt.None? then Some(now) else c.closeAt
  {
    hide SendHistory, Window, OpOf, ReadU32;
  }

  lemma {:induction false} DumpsClose(c: ClientState, ps: seq<Packet>, output: seq<byte>, now: nat)
    ensures HandleAll(c, ps, output, now).closeAt
            == if c.closeAt.None? && AsksForDump(ps) then Some(now) else c.closeAt
    decreases |ps|
  {
    hide Handle;
    if ps != [] {
      HandleCloses(c, ps[0], output, now);
      DumpsClose(Handle(c, ps[0], output, now), ps[1..], output, now);
      assert ps == [ps[0]] + ps[1..];
      assert AsksForDump(ps) <==> ps[0].typ == MSG_DUMP || AsksForDump(ps[1..]);
    }
  }

  lemma ServedClosing(c: ClientState, io: TickIO)
    ensures Served(c, io).closeAt
            == if c.closeAt.None? && AsksForDump(Completed(c)) then Some(io.dumpAt) else c.closeAt
  {
    hide Handle, Parse, ReadSocket, AsksForDump;
    var b := BroadcastAll(c, io.chunks);
    BroadcastAllLeaves(c, io.chunks);
    var r := ReadSocket(b.inbox, []);
    if r.ending.Failure? {
      assert !AsksForDump([]) by { NoDumpIn(); }
    } else {
      var parsed := Parse(b.buf + r.bytes);
      var d := b.(inbox := r.inbox, buf := Leftover(parsed), fed := b.fed + r.bytes);
      DumpsClose(d, parsed.packets, io.output, io.dumpAt);
    }
  }

  lemma NoDumpIn()
    ensures !AsksForDump([])
  {
  }

  /** When a client's time to close is set, and to what: the clock of the first tick in which it
      asks for a dump, or else of the first with the child gone. */
  lemma TimeToClose(s: ServerState, t: Tick, i: nat)
    requires Good(s) && i < |Present(s, t)|
    ensures var c, d := Present(s, t)[i], Ticked(s, t)[i];
            && c.decoded <= d.decoded
            && (c.closeAt.Some? ==> d.closeAt == c.closeAt)
            && (c.closeAt.None? && AsksForDump(Since(c, d)) ==> d.closeAt == Some(t.dumpClock(i)))
            && (c.closeAt.None? && !AsksForDump(Since(c, d)) && !d.disconnected ==>
                  d.closeAt == if Step(s, t).exit.Some? then Some(t.exitClock(i)) else None)
  {
    hide ClientInv, Served, AsksForDump, Present, Ticked, Good, Completed, ClientTick;
    PresentGood(s, t);
    TickedKeeps(s, t, i);
    var c, io := Present(s, t)[i], IO(s, t, i);
    ServedClosing(c, io);
    ServedDecodes(c, io);
    RestOfTick(c, io);
    TickDisconnects(c, io);
    assert (c.decoded + Completed(c))[|c.decoded|..] == Completed(c);
  }

  lemma TickDisconnects(c: ClientState, io: TickIO)
    ensures Served(c, io).disconnected ==> ClientTick(c, io).disconnected
  {
    hide Served, Flush, Send;
  }

  /** Five seconds: a client still connected after its flush is dropped at the end of the tick
      exactly when it has a time to close and its queue is empty or five thousand million
      nanoseconds have passed. */
  lemma ClosedIff(s: ServerState, t: Tick, i: nat)
    requires i < |Present(s, t)|
    ensures var c, d := Present(s, t)[i], Ticked(s, t)[i];
            var e := FlushStep(ExitStep(Served(c, IO(s, t, i)), IO(s, t, i)));
            && d == e.(disconnected := d.disconnected)
            && (e.disconnected ==> d.disconnected)
            && (!e.disconnected ==>
                  (d.disconnected <==>
                     d.closeAt.Some? && (d.out.queue == [] || t.now >= d.closeAt.value + 5_000_000_000)))
  {
    hide Served, ExitStep, FlushStep, Present;
  }

  // ------------------------------------------------------------------- the child

  /** Once the loop has returned nothing happens any more. */
  lemma FinishedStays(s: ServerState, ticks: seq<Tick>)
    requires s.finished
    ensures Run(s, ticks) == s
  {
  }

  /** The status: once set it stays; a shutdown sets 143; otherwise it is what `waitpid` reports, as
      soon as it does. The loop returns as soon as there is a status and nobody is left. */
  lemma StatusIs(s: ServerState, t: Tick)
    ensures s.exit.Some? ==> Step(s, t).exit == s.exit
    ensures s.exit.None? && t.shutdown ==> Step(s, t).exit == Some(143)
    ensures s.exit.None? && !t.shutdown ==> Step(s, t).exit == t.wait
    ensures Step(s, t).finished <==> Step(s, t).exit.Some? && forall d :: d in Ticked(s, t) ==> d.disconnected
  {
    hide Ticked, Present, NewOps;
    ConnectedMembers(Ticked(s, t));
    var clients := Step(s, t).clients;
    if clients != [] {
      assert clients[0] in clients;
    }
  }
}
