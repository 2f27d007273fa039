/** The session server as the source has it: clients updated in place, in the loops of
    `server_loop`. Every method is proved to take the steps of Session. */
module Server {
  import opened Protocol
  import opened Codec
  import opened Sending
  import opened Session
  import opened Invariant
  import H = History

  /** The master side of the pseudo-terminal, and who wrote what to it. */
  class Terminal {
    var log: seq<(nat, PtyOp)>

    constructor ()
      ensures log == []
    {
      log := [];
    }

    method Perform(id: nat, op: PtyOp)
      modifies this
      ensures log == old(log) + [(id, op)]
    {
      log := log + [(id, op)];
    }
  }

  lemma {:induction false} TaggedAppend(id: nat, a: seq<PtyOp>, b: seq<PtyOp>)
    ensures Tagged(id, a + b) == Tagged(id, a) + Tagged(id, b)
  {
    if a == [] {
      assert a + b == b;
    } else {
      assert (a + b)[1..] == a[1..] + b;
      TaggedAppend(id, a[1..], b);
    }
  }

  lemma LogGrows(id: nat, log: seq<(nat, PtyOp)>, a: seq<PtyOp>, b: seq<PtyOp>, c: seq<PtyOp>)
    requires a <= b <= c
    ensures (log + Tagged(id, b[|a|..])) + Tagged(id, c[|b|..]) == log + Tagged(id, c[|a|..])
  {
    hide Tagged;
    TaggedAppend(id, b[|a|..], c[|b|..]);
    assert c[|a|..] == b[|a|..] + c[|b|..];
  }

  lemma NoTags(id: nat)
    ensures Tagged(id, []) == []
  {
  }

  class Client {
    const id: nat
    var inbox: seq<ReadResult>
    var writes: seq<Write>
    var wire: seq<byte>
    var buf: seq<byte>
    var attached: bool
    var flags: u32
    var disconnected: bool
    var sendQueue: seq<byte>
    var closeAfterDrain: Option<nat>

    ghost var accepted: seq<Packet>
    ghost var failed: bool
    ghost var fed: seq<byte>
    ghost var decoded: seq<Packet>
    ghost var replays: seq<Replay>
    ghost var ops: seq<PtyOp>

    ghost function View(): ClientState
      reads this
    {
      ClientState(id, Outbox(sendQueue, writes, wire, accepted, failed), inbox, buf,
                  attached, flags, disconnected, closeAfterDrain, fed, decoded, replays, ops)
    }

    constructor (id: nat, pid: nat, inbox: seq<ReadResult>, writes: seq<Write>)
      ensures View() == Newcomer(id, pid, inbox, writes)
    {
      this.id, this.inbox, this.writes := id, inbox, writes;
      wire, accepted, failed := Encode(PidPacket(pid)), [PidPacket(pid)], false;
      buf, attached, flags, disconnected := [], false, 0, false;
      sendQueue, closeAfterDrain := [], None;
      fed, decoded, replays, ops := [], [], [], [];
    }

    /** `try_flush_client` */
    method TryFlush() returns (ok: bool)
      modifies this`writes, this`wire, this`sendQueue, this`failed
      ensures var s := Flush(old(View().out));
              View() == old(View()).(out := s.box) && ok == s.ok
    {
      hide Flush, FrontLen;
      while true
        invariant accepted == old(accepted)
        invariant Flush(View().out) == Flush(old(View().out))
        decreases |writes|
      {
        FlushTurn(View().out);
        var frontLen := FrontLen(sendQueue, if writes == [] then 0 else writes[0].split);
        if frontLen == 0 || writes == [] {
          return true;
        }
        var answer := WriteSocket(sendQueue[..frontLen]);
        match answer
        case Accept(written) =>
          if written == 0 {
            failed := true;
            return false;
          }
          sendQueue := sendQueue[written..];
        case WouldBlock =>
          return true;
        case Interrupted =>
        case Failed =>
          failed := true;
          return false;
      }
    }

    /** One `write` to the socket: it takes no more than it is given. */
    method WriteSocket(front: seq<byte>) returns (answer: WriteResult)
      requires writes != [] && front <= sendQueue
      modifies this`writes, this`wire
      ensures writes == old(writes)[1..]
      ensures var r := old(writes)[0].result;
              if r.Accept? then
                var k := Min(r.n, |front|);
                answer == Accept(k) && wire == old(wire) + sendQueue[..k]
              else answer == r && wire == old(wire)
    {
      answer := writes[0].result;
      writes := writes[1..];
      if answer.Accept? {
        answer := Accept(Min(answer.n, |front|));
        assert front[..answer.n] == sendQueue[..answer.n];
        wire := wire + front[..answer.n];
      }
    }

    /** One turn of the flush loop. */
    static lemma FlushTurn(o: Outbox)
      ensures if o.queue == [] || o.writes == [] then Flush(o) == Sent(o, true)
              else
                var next := o.(writes := o.writes[1..]);
                match o.writes[0].result
                case Accept(n) =>
                  var k := Min(n, FrontLen(o.queue, o.writes[0].split));
                  if k == 0 then Flush(o) == Sent(next.(failed := true), false)
                  else Flush(o) == Flush(next.(wire := o.wire + o.queue[..k], queue := o.queue[k..]))
                case WouldBlock => Flush(o) == Sent(next, true)
                case Interrupted => Flush(o) == Flush(next)
                case Failed => Flush(o) == Sent(next.(failed := true), false)
    {
    }

    /** `send_packet_nonblocking` */
    method SendPacket(pkt: Packet) returns (ok: bool)
      modifies this`writes, this`wire, this`sendQueue, this`failed, this`accepted
      ensures var s := Send(old(View().out), pkt);
              View() == old(View()).(out := s.box) && ok == s.ok
    {
      var bytes := Encode(pkt);
      if |sendQueue| + |bytes| > SEND_QUEUE_CAP {
        return false;
      }
      sendQueue := sendQueue + bytes;
      accepted := accepted + [pkt];
      ok := TryFlush();
    }

    /** `send_history` */
    method SendHistory(history: H.Deque, sendEnd: bool)
      requires history.Valid()
      modifies this
      ensures View() == ReplayTo(old(View()), history.all, sendEnd)
    {
      hide Send, Window, ReplayPackets;
      var snap := history.Snapshot();
      replays := replays + [Replay(|history.all|, attached)];
      var i := 0;
      while i < |snap|
        invariant 0 <= i <= |snap|
        invariant View() == old(View()).(out := View().out, replays := View().replays)
        invariant replays == old(replays) + [Replay(|history.all|, attached)]
        invariant SendAll(View().out, ReplayPackets(snap[i..])) == SendAll(old(View().out), ReplayPackets(snap))
      {
        var k := Min(MAX_PAYLOAD, |snap| - i);
        NextChunk(snap, i);
        var ok := SendPacket(Packet(MSG_CONTENT, snap[i..i + k]));
        if !ok {
          disconnected := true;
          return;
        }
        i := i + k;
      }
      assert snap[i..] == [];
      NoChunks();
      if sendEnd {
        var _ := SendPacket(DUMP_END_PACKET);
      }
    }

    static lemma NextChunk(snap: seq<byte>, i: nat)
      requires i < |snap|
      ensures var k := Min(MAX_PAYLOAD, |snap| - i);
              ReplayPackets(snap[i..]) == [Packet(MSG_CONTENT, snap[i..i + k])] + ReplayPackets(snap[i + k..])
    {
      var k := Min(MAX_PAYLOAD, |snap| - i);
      assert snap[i..][..k] == snap[i..i + k] && snap[i..][k..] == snap[i + k..];
      ToPacketsCons(MSG_CONTENT, snap[i..i + k], Chunks(snap[i + k..]));
    }

    static lemma NoChunks()
      ensures ReplayPackets([]) == []
    {
    }

    /** The `match` of `read_client_packets`. */
    method HandlePacket(pkt: Packet, history: H.Deque, master: Terminal, now: nat)
      requires history.Valid()
      modifies this, master
      ensures View() == Handle(old(View()), pkt, history.all, now)
      ensures master.log == old(master.log) + Tagged(id, OpOf(old(flags), pkt))
    {
      hide ReplayTo, OpOf;
      decoded := decoded + [pkt];
      Forward(pkt, master);
      if pkt.typ == MSG_ATTACH {
        Attach(pkt, history);
      } else if pkt.typ == MSG_DUMP {
        Dump(history, now);
      } else if pkt.typ == MSG_DETACH || pkt.typ == MSG_EXIT {
        disconnected := true;
      }
    }

    method Attach(pkt: Packet, history: H.Deque)
      requires history.Valid()
      modifies this
      ensures var flags := if ReadU32(pkt.payload).Some? then ReadU32(pkt.payload).value else 0;
              View() == ReplayTo(old(View()).(attached := true, flags := flags), history.all, false)
    {
      hide ReplayTo;
      attached := true;
      flags := if ReadU32(pkt.payload).Some? then ReadU32(pkt.payload).value else 0;
      SendHistory(history, false);
    }

    method Dump(history: H.Deque, now: nat)
      requires history.Valid()
      modifies this
      ensures var e := ReplayTo(old(View()), history.all, true);
              View() == if e.closeAt.None? then e.(closeAt := Some(now)) else e
    {
      hide ReplayTo;
      SendHistory(history, true);
      if closeAfterDrain.None? {
        closeAfterDrain := Some(now);
      }
    }

    /** The arms of the `match` that reach the terminal. */
    method Forward(pkt: Packet, master: Terminal)
      modifies this`ops, master
      ensures ops == old(ops) + OpOf(flags, pkt)
      ensures master.log == old(master.log) + Tagged(id, OpOf(flags, pkt))
    {
      ops := ops + OpOf(flags, pkt);
      if (pkt.typ == MSG_CONTENT || pkt.typ == MSG_SEND_KEYS) && MayWrite(flags) {
        master.Perform(id, Input(pkt.payload));
      } else if pkt.typ == MSG_RESIZE && |pkt.payload| >= 4 {
        master.Perform(id, Winsize(Value(pkt.payload[..2]), Value(pkt.payload[2..4])));
      }
    }

    /** The read loop: everything the socket has for now goes into `buf`. */
    method ReadSocketInto() returns (ending: Ending)
      modifies this`inbox, this`buf
      ensures var r := ReadSocket(old(inbox), []);
              inbox == r.inbox && buf == old(buf) + r.bytes && ending == r.ending
    {
      ghost var got := [];
      while inbox != []
        invariant buf == old(buf) + got
        invariant ReadSocket(inbox, got) == ReadSocket(old(inbox), [])
        decreases |inbox|
      {
        var answer := inbox[0];
        inbox := inbox[1..];
        match answer
        case Data(bytes) =>
          if bytes == [] {
            return Eof;
          }
          buf := buf + bytes;
          got := got + bytes;
        case NotReady =>
          return Blocked;
        case Retry =>
        case Broken =>
          return Failure;
      }
      return Blocked;
    }

    /** The packet loop: `pop_packet` until it returns nothing. */
    method PacketLoop(history: H.Deque, master: Terminal, now: nat)
      requires history.Valid()
      modifies this, master
      ensures var all := Parse(old(buf));
              View() == HandleAll(old(View()).(buf := Leftover(all)), all.packets, history.all, now)
      ensures old(ops) <= ops
      ensures master.log == old(master.log) + Tagged(id, ops[|old(ops)|..])
    {
      hide Handle, Recv, Tagged;
      ghost var left := Leftover(Parse(buf));
      ghost var goal := HandleAll(View().(buf := left), Parse(buf).packets, history.all, now);
      assert ops[|ops|..] == [];
      NoTags(id);
      while true
        invariant HandleAll(View().(buf := left), Parse(buf).packets, history.all, now) == goal
        invariant Leftover(Parse(buf)) == left
        invariant old(ops) <= ops
        invariant master.log == old(master.log) + Tagged(id, ops[|old(ops)|..])
        decreases |buf|
      {
        ghost var before := View();
        var more := TakePacket(history, master, now, left);
        LogGrows(id, old(master.log), old(ops), before.ops, ops);
        if !more {
          return;
        }
      }
    }

    /** One turn of the packet loop. */
    method TakePacket(history: H.Deque, master: Terminal, now: nat, ghost left: seq<byte>) returns (more: bool)
      requires history.Valid()
      modifies this, master
      ensures var all := Parse(old(buf));
              if all.packets == [] then !more && View() == old(View()).(buf := Leftover(all))
              else
                && more && |buf| < |old(buf)|
                && View().(buf := left) == Handle(old(View()).(buf := left), all.packets[0], history.all, now)
                && Parse(buf) == Parsed(all.packets[1..], all.rest, all.oversized)
      ensures old(ops) <= ops && master.log == old(master.log) + Tagged(id, ops[|old(ops)|..])
    {
      hide Handle, Parse, OpOf;
      var pkt, rest := PopPacket(buf);
      buf := rest;
      if pkt.None? {
        assert ops[|ops|..] == [];
        return false;
      }
      ghost var before := View();
      HandlePacket(pkt.value, history, master, now);
      HandleIgnoresBuf(before, left, pkt.value, history.all, now);
      return true;
    }

    /** `read_client_packets` */
    method ReadPackets(history: H.Deque, master: Terminal, now: nat)
      requires history.Valid()
      modifies this, master
      ensures View() == Session.ReadPackets(old(View()), history.all, now)
      ensures master.log == old(master.log) + Tagged(id, OpsSince(old(View()), View()))
    {
      hide Parse, ReadSocket;
      var ending := ReadSocketInto();
      if ending == Failure {
        disconnected := true;
        assert ops[|ops|..] == [];
        return;
      }
      fed := fed + ReadSocket(old(inbox), []).bytes;
      PacketLoop(history, master, now);
      if ending == Eof {
        disconnected := true;
      }
    }
  }

  lemma HandleIgnoresBuf(c: ClientState, buf: seq<byte>, p: Packet, output: seq<byte>, now: nat)
    ensures Handle(c.(buf := buf), p, output, now) == Handle(c, p, output, now).(buf := buf)
    ensures Handle(c, p, output, now).buf == c.buf
    ensures Handle(c, p, output, now).ops == c.ops + OpOf(c.flags, p)
  {
    hide SendHistory, Window, OpOf, ReadU32;
  }

  // ---------------------------------------------------------------- the server

  ghost function Views(cs: seq<Client>): (vs: seq<ClientState>)
    reads cs
    ensures |vs| == |cs|
  {
    seq(|cs|, i requires 0 <= i < |cs| reads cs => cs[i].View())
  }

  ghost predicate Distinct(cs: seq<Client>) {
    forall i, j :: 0 <= i < j < |cs| ==> cs[i] != cs[j]
  }

  // How the clients before a loop over them relate to the clients after it.

  ghost predicate AllRead(v: seq<ClientState>, w: seq<ClientState>, output: seq<byte>, clock: nat -> nat) {
    |v| == |w| && forall i :: 0 <= i < |v| ==> w[i] == ReadPackets(v[i], output, clock(i))
  }

  ghost predicate AllScheduled(v: seq<ClientState>, w: seq<ClientState>, status: i32, clock: nat -> nat) {
    |v| == |w| && forall i :: 0 <= i < |v| ==> w[i] == ScheduleExit(v[i], status, clock(i))
  }

  ghost predicate AllFlushed(v: seq<ClientState>, w: seq<ClientState>) {
    |v| == |w| && forall i :: 0 <= i < |v| ==> w[i] == FlushStep(v[i])
  }

  ghost predicate AllClosed(v: seq<ClientState>, w: seq<ClientState>, now: nat) {
    |v| == |w| && forall i :: 0 <= i < |v| ==> w[i] == CloseStep(v[i], now)
  }

  /** `broadcast_content` */
  method BroadcastContent(clients: seq<Client>, bytes: seq<byte>)
    requires Distinct(clients)
    modifies clients
    ensures forall i :: 0 <= i < |clients| ==> clients[i].View() == Broadcast(old(clients[i].View()), bytes)
  {
    hide Send;
    for k := 0 to |clients|
      invariant forall i :: 0 <= i < k ==> clients[i].View() == Broadcast(old(clients[i].View()), bytes)
      invariant forall i :: k <= i < |clients| ==> clients[i].View() == old(clients[i].View())
    {
      var client := clients[k];
      if client.attached {
        var ok := client.SendPacket(Packet(MSG_CONTENT, bytes));
        if !ok {
          client.disconnected := true;
        }
      }
    }
  }

  /** The loop over clients that reads and processes their packets. */
  method ReadClients(clients: seq<Client>, history: H.Deque, master: Terminal, clock: nat -> nat)
    requires Distinct(clients) && history.Valid()
    modifies clients, master
    ensures AllRead(old(Views(clients)), Views(clients), history.all, clock)
    ensures master.log == old(master.log) + NewOps(old(Views(clients)), Views(clients))
  {
    hide ReadPackets, OpsSince, Tagged, NewOps;
    ghost var all := Views(clients);
    ghost var before: seq<ClientState>, after: seq<ClientState> := [], [];
    NoOps();
    for k := 0 to |clients|
      invariant |before| == |after| == k && before == all[..k]
      invariant forall i :: 0 <= i < k ==>
                  clients[i].View() == after[i] && after[i] == ReadPackets(all[i], history.all, clock(i))
      invariant forall i :: k <= i < |clients| ==> clients[i].View() == all[i]
      invariant master.log == old(master.log) + NewOps(before, after)
    {
      clients[k].ReadPackets(history, master, clock(k));
      NewOpsLast(before, after, all[k], clients[k].View());
      before, after := before + [all[k]], after + [clients[k].View()];
    }
    assert before == all && after == Views(clients);
  }

  lemma NoOps()
    ensures NewOps([], []) == []
  {
  }

  lemma {:induction false} NewOpsLast(before: seq<ClientState>, after: seq<ClientState>, c: ClientState, d: ClientState)
    requires |before| == |after|
    ensures NewOps(before + [c], after + [d]) == NewOps(before, after) + Tagged(c.id, OpsSince(c, d))
  {
    if before == [] {
      assert [c] == [] + [c] && [d] == [] + [d] && [c][1..] == [] && [d][1..] == [];
    } else {
      assert (before + [c])[1..] == before[1..] + [c] && (after + [d])[1..] == after[1..] + [d];
      NewOpsLast(before[1..], after[1..], c, d);
    }
  }

  /** Queue MSG_EXIT for every client not yet told to close. */
  method ScheduleExits(clients: seq<Client>, status: i32, clock: nat -> nat)
    requires Distinct(clients)
    modifies clients
    ensures AllScheduled(old(Views(clients)), Views(clients), status, clock)
  {
    hide Send;
    for k := 0 to |clients|
      invariant forall i :: 0 <= i < k ==>
                  clients[i].View() == ScheduleExit(old(clients[i].View()), status, clock(i))
      invariant forall i :: k <= i < |clients| ==> clients[i].View() == old(clients[i].View())
    {
      var client := clients[k];
      if !client.disconnected && client.closeAfterDrain.None? {
        var _ := client.SendPacket(ExitPacket(status));
        client.closeAfterDrain := Some(clock(k));
      }
    }
  }

  method FlushClients(clients: seq<Client>)
    requires Distinct(clients)
    modifies clients
    ensures AllFlushed(old(Views(clients)), Views(clients))
  {
    hide Flush;
    for k := 0 to |clients|
      invariant forall i :: 0 <= i < k ==> clients[i].View() == FlushStep(old(clients[i].View()))
      invariant forall i :: k <= i < |clients| ==> clients[i].View() == old(clients[i].View())
    {
      var client := clients[k];
      if !client.disconnected {
        var ok := client.TryFlush();
        if !ok {
          client.disconnected := true;
        }
      }
    }
  }

  method CloseClients(clients: seq<Client>, now: nat)
    requires Distinct(clients)
    modifies clients
    ensures AllClosed(old(Views(clients)), Views(clients), now)
  {
    for k := 0 to |clients|
      invariant forall i :: 0 <= i < k ==> clients[i].View() == CloseStep(old(clients[i].View()), now)
      invariant forall i :: k <= i < |clients| ==> clients[i].View() == old(clients[i].View())
    {
      var client := clients[k];
      if !client.disconnected && client.closeAfterDrain.Some?
         && (client.sendQueue == [] || Expired(client.closeAfterDrain.value, now)) {
        client.disconnected := true;
      }
    }
  }

  /** `retain(|c| !c.disconnected)` */
  method Retain(clients: seq<Client>) returns (kept: seq<Client>)
    requires Distinct(clients)
    ensures Views(kept) == Connected(Views(clients))
    ensures Distinct(kept) && forall c :: c in kept ==> c in clients
  {
    hide Connected;
    kept := [];
    ghost var views := Views(clients);
    NoneConnected();
    for k := 0 to |clients|
      invariant Distinct(kept) && forall c :: c in kept ==> c in clients[..k]
      invariant Views(kept) == Connected(views[..k])
    {
      assert views[..k + 1] == views[..k] + [views[k]] && clients[..k + 1] == clients[..k] + [clients[k]];
      ConnectedLast(views[..k], views[k]);
      assert clients[k] !in clients[..k];
      if !clients[k].disconnected {
        kept := kept + [clients[k]];
      }
    }
    assert views[..|clients|] == views && clients[..|clients|] == clients;
  }

  lemma NoneConnected()
    ensures Connected([]) == []
  {
  }

  lemma {:induction false} ConnectedLast(cs: seq<ClientState>, c: ClientState)
    ensures Connected(cs + [c]) == Connected(cs) + if c.disconnected then [] else [c]
  {
    if cs == [] {
      assert [] + [c] == [c] && [c][1..] == [];
    } else {
      assert (cs + [c])[1..] == cs[1..] + [c];
      ConnectedLast(cs[1..], c);
    }
  }
}
