/** `server_loop`: its phases in order, proved to be a step of Session, and the loop itself
    proved to be a run. */
module ServerLoop {
  import opened Protocol
  import opened Sending
  import opened Session
  import opened Server
  import opened Invariant
  import H = History

  class SessionServer {
    const pid: nat
    const history: H.Deque
    const master: Terminal
    var clients: seq<Client>
    var readPty: bool
    var childExit: Option<i32>
    var nextId: nat
    var finished: bool
    ghost var gone: seq<ClientState>
    ghost var clock: nat

    ghost predicate Valid()
      reads this, history
    {
      history.Valid() && Distinct(clients)
    }

    ghost function View(): ServerState
      reads this, history, master, clients
    {
      ServerState(pid, Views(clients), gone, nextId, history.all, readPty, childExit, master.log, clock, finished)
    }

    constructor (pid: nat, readPty: bool, ghost clock: nat)
      ensures Valid() && fresh(history) && fresh(master) && clients == []
      ensures View() == Start(pid, readPty, clock)
    {
      this.pid, this.readPty := pid, readPty;
      history := new H.Deque();
      master := new Terminal();
      clients, childExit, nextId, finished := [], None, 0, false;
      this.gone, this.clock := [], clock;
    }

    /** The accept loop. */
    method AcceptAll(accepts: seq<Accepting>)
      requires Valid()
      modifies this`clients, this`nextId, this`readPty
      ensures Valid()
      ensures var news := Newcomers(accepts, old(nextId), pid);
              && Views(clients) == old(Views(clients)) + news
              && nextId == old(nextId) + |news|
              && readPty == (old(readPty) || news != [])
      ensures forall c :: c in clients ==> c in old(clients) || fresh(c)
    {
      hide Newcomer;
      ghost var was := Views(clients);
      ghost var goal := Newcomers(accepts, nextId, pid);
      ghost var joined: seq<ClientState> := [];
      for i := 0 to |accepts|
        invariant Distinct(clients) && Views(clients) == was + joined
        invariant forall c :: c in clients ==> c in old(clients) || fresh(c)
        invariant joined + Newcomers(accepts[i..], nextId, pid) == goal
        invariant nextId == old(nextId) + |joined|
        invariant readPty == (old(readPty) || joined != [])
      {
        assert accepts[i..][0] == accepts[i] && accepts[i..][1..] == accepts[i + 1..];
        if accepts[i].NoConnection? {
          return;
        }
        if !accepts[i].nonblocking {
          continue;
        }
        Join(accepts[i].inbox, accepts[i].writes);
        ghost var newcomer := Newcomer(old(nextId) + |joined|, pid, accepts[i].inbox, accepts[i].writes);
        joined := joined + [newcomer];
      }
    }

    method Join(inbox: seq<ReadResult>, writes: seq<Write>)
      requires Distinct(clients)
      modifies this`clients, this`nextId, this`readPty
      ensures Distinct(clients) && nextId == old(nextId) + 1 && readPty
      ensures Views(clients) == old(Views(clients)) + [Newcomer(old(nextId), pid, inbox, writes)]
      ensures forall c :: c in clients ==> c in old(clients) || fresh(c)
    {
      ghost var before := Views(clients);
      var client := new Client(nextId, pid, inbox, writes);
      assert Views(clients) == before;
      assert Views(clients + [client]) == before + [client.View()];
      clients := clients + [client];
      nextId := nextId + 1;
      readPty := true;
    }

    /** The loop that reads the terminal, remembering and broadcasting every chunk. */
    method ReadTerminal(answers: seq<PtyRead>)
      requires Valid() && readPty
      modifies this`readPty, history, clients
      ensures Valid()
      ensures var r := ReadPty(answers, []);
              && readPty == r.readPty
              && history.all == old(history.all) + Flatten(r.chunks)
              && forall i :: 0 <= i < |clients| ==> clients[i].View() == BroadcastAll(old(clients[i].View()), r.chunks)
    {
      hide Broadcast;
      ghost var before := Views(clients);
      ghost var chunks: seq<seq<byte>> := [];
      for k := 0 to |answers|
        invariant readPty && history.Valid() && history.all == old(history.all) + Flatten(chunks)
        invariant ReadPty(answers[k..], chunks) == ReadPty(answers, [])
        invariant forall i :: 0 <= i < |clients| ==> clients[i].View() == BroadcastAll(before[i], chunks)
      {
        assert answers[k..][0] == answers[k] && answers[k..][1..] == answers[k + 1..];
        match answers[k]
        case Output(bytes) =>
          if bytes == [] {
            readPty := false;
            return;
          }
          history.Append(bytes);
          BroadcastContent(clients, bytes);
          FlattenLast(old(history.all), chunks + [bytes]);
          assert Init(chunks + [bytes]) == chunks && Last(chunks + [bytes]) == bytes;
          chunks := chunks + [bytes];
        case PtyNotReady =>
          return;
        case PtyRetry =>
        case PtyFailed =>
          readPty := false;
          return;
      }
    }

    /** Only clients that were there before, or are new. */
    twostate predicate SameOrNew()
      reads this
    {
      forall i :: 0 <= i < |clients| ==> clients[i] in old(clients) || fresh(clients[i])
    }

    /** The first half of an iteration: the shutdown flag, new connections, the terminal's
        output, and whether the child has exited. */
    method Gather(t: Tick)
      requires Valid()
      modifies this`clients, this`nextId, this`readPty, this`childExit, history, clients
      ensures Valid() && SameOrNew()
      ensures var s := old(View());
              && |clients| == |Present(s, t)|
              && (forall i :: 0 <= i < |clients| ==>
                    clients[i].View() == BroadcastAll(Present(s, t)[i], PtyIn(s, t).chunks))
              && history.all == OutputAfter(s, t)
              && readPty == PtyIn(s, t).readPty
              && childExit == ExitAfter(s.exit, t)
              && nextId == s.nextId + |Newcomers(t.accepts, s.nextId, s.pid)|
    {
      hide Newcomers, PtyOf, BroadcastAll;
      Admit(t);
      ReadIfOpen(t);
      if childExit.None? {
        childExit := t.wait;
      }
    }

    method Admit(t: Tick)
      requires Valid()
      modifies this`clients, this`nextId, this`readPty, this`childExit
      ensures Valid() && SameOrNew()
      ensures var s := old(View());
              && Views(clients) == Present(s, t)
              && readPty == (s.readPty || Newcomers(t.accepts, s.nextId, s.pid) != [])
              && childExit == (if s.exit.None? && t.shutdown then Some(SHUTDOWN_STATUS) else s.exit)
              && nextId == s.nextId + |Newcomers(t.accepts, s.nextId, s.pid)|
    {
      hide Newcomers;
      if t.shutdown && childExit.None? {
        childExit := Some(SHUTDOWN_STATUS);
      }
      AcceptAll(t.accepts);
      assert forall i :: 0 <= i < |clients| ==> clients[i] in old(clients) || fresh(clients[i]);
    }

    method ReadIfOpen(t: Tick)
      requires Valid()
      modifies this`readPty, history, clients
      ensures Valid()
      ensures var r := PtyOf(old(readPty), t);
              && readPty == r.readPty
              && history.all == old(history.all) + Flatten(r.chunks)
              && forall i :: 0 <= i < |clients| ==> clients[i].View() == BroadcastAll(old(clients[i].View()), r.chunks)
    {
      hide ReadPty, Broadcast;
      if readPty {
        ReadTerminal(t.pty);
      } else {
        assert history.all + [] == history.all;
      }
    }

    /** The second half, with everything gathered: serve the clients, let go of those that are
        done, and see whether that leaves anything to do. */
    method Attend(t: Tick)
      requires Valid()
      modifies this`clients, this`finished, this`gone, this`clock, master, clients
      ensures Valid() && forall c :: c in clients ==> c in old(clients)
      ensures var v := old(Views(clients));
              var after := AttendAll(v, t, history.all, childExit);
              && Views(clients) == Connected(after)
              && gone == old(gone) + Dropped(after)
              && master.log == old(master.log) + NewOps(v, after)
      ensures clock == t.now && finished == (childExit.Some? && clients == [])
    {
      hide AttendAll, Connected, Dropped, NewOps, Distinct, Views;
      ghost var after := AttendAll(Views(clients), t, history.all, childExit);
      ServeAll(t);
      clients := Retain(clients);
      gone := gone + Dropped(after);
      clock := t.now;
      finished := childExit.Some? && clients == [];
    }

    /** The loops over the clients up to the drain deadline. */
    method ServeAll(t: Tick)
      requires Valid()
      modifies master, clients
      ensures var after := AttendAll(old(Views(clients)), t, history.all, childExit);
              && Views(clients) == after
              && master.log == old(master.log) + NewOps(old(Views(clients)), after)
    {
      hide AllRead, AllScheduled, AllFlushed, AllClosed, NewOps, AttendAll, Distinct;
      ghost var v0 := Views(clients);
      ReadClients(clients, history, master, t.dumpClock);
      ghost var v1 := Views(clients);
      if childExit.Some? {
        ScheduleExits(clients, childExit.value, t.exitClock);
      }
      ghost var v2 := Views(clients);
      FlushClients(clients);
      ghost var v3 := Views(clients);
      CloseClients(clients, t.now);
      PhasesMeet(v0, v1, v2, v3, Views(clients), t, history.all, childExit);
    }

    /** One iteration of `server_loop`. */
    method Iterate(t: Tick)
      requires Valid() && !finished
      modifies this, history, master, clients
      ensures Valid() && SameOrNew()
      ensures View() == Step(old(View()), t)
    {
      hide BroadcastAll, NewOps, Attended, ClientTick, PtyIn, Newcomers, Connected, Dropped;
      ghost var s := View();
      Gather(t);
      ghost var there, v := clients, Views(clients);
      Attend(t);
      assert forall i :: 0 <= i < |clients| ==> clients[i] in there;
      HalvesMeet(s, t, v);
    }

    /** `server_loop`, for as long as the environment has ticks to offer. */
    method Loop(ticks: seq<Tick>)
      requires Valid()
      modifies this, history, master, clients
      ensures Valid() && View() == Run(old(View()), ticks)
    {
      hide Step;
      assert ticks[0..] == ticks;
      for i := 0 to |ticks|
        invariant Valid() && SameOrNew()
        invariant Run(View(), ticks[i..]) == Run(old(View()), ticks)
      {
        if finished {
          return;
        }
        assert ticks[i..][0] == ticks[i] && ticks[i..][1..] == ticks[i + 1..];
        Iterate(ticks[i]);
      }
    }
  }

  /** A client from the end of a broadcast to the end of the tick. */
  ghost function Attended(c: ClientState, t: Tick, output: seq<byte>, exit: Option<i32>, i: nat): ClientState {
    var d := ReadPackets(c, output, t.dumpClock(i));
    var e := if exit.Some? then ScheduleExit(d, exit.value, t.exitClock(i)) else d;
    CloseStep(FlushStep(e), t.now)
  }

  ghost function AttendAll(v: seq<ClientState>, t: Tick, output: seq<byte>, exit: Option<i32>)
    : (after: seq<ClientState>)
    ensures |after| == |v|
    ensures forall i :: 0 <= i < |v| ==> after[i] == Attended(v[i], t, output, exit, i)
  {
    seq(|v|, i requires 0 <= i < |v| => Attended(v[i], t, output, exit, i))
  }

  lemma AttendedLeaves(c: ClientState, t: Tick, output: seq<byte>, exit: Option<i32>, i: nat)
    ensures Attended(c, t, output, exit, i).ops == ReadPackets(c, output, t.dumpClock(i)).ops
  {
    hide ReadPackets, Flush, Send;
  }

  /** The clients after each of the loops: reading, scheduling, flushing, closing. */
  lemma PhasesMeet(v0: seq<ClientState>, v1: seq<ClientState>, v2: seq<ClientState>, v3: seq<ClientState>,
                   v4: seq<ClientState>, t: Tick, output: seq<byte>, exit: Option<i32>)
    requires AllRead(v0, v1, output, t.dumpClock)
    requires if exit.Some? then AllScheduled(v1, v2, exit.value, t.exitClock) else v2 == v1
    requires AllFlushed(v2, v3) && AllClosed(v3, v4, t.now)
    ensures v4 == AttendAll(v0, t, output, exit)
    ensures NewOps(v0, v1) == NewOps(v0, v4)
  {
    hide ReadPackets, ScheduleExit, FlushStep, CloseStep, NewOps;
    forall i | 0 <= i < |v0|
      ensures v4[i] == Attended(v0[i], t, output, exit, i) && v1[i].ops == v4[i].ops
    {
      AttendedLeaves(v0[i], t, output, exit, i);
    }
    SameOps(v0, v1, v0, v4);
  }

  /** The two halves of an iteration make up the tick of every client. */
  lemma HalvesMeet(s: ServerState, t: Tick, v: seq<ClientState>)
    requires |v| == |Present(s, t)|
    requires forall i :: 0 <= i < |v| ==> v[i] == BroadcastAll(Present(s, t)[i], PtyIn(s, t).chunks)
    ensures var after := AttendAll(v, t, OutputAfter(s, t), ExitAfter(s.exit, t));
            && after == Ticked(s, t)
            && NewOps(v, after) == NewOps(Present(s, t), after)
  {
    hide ReadPackets, ScheduleExit, FlushStep, CloseStep, NewOps, PtyIn, ExitAfter, OutputAfter, Present;
    var after := AttendAll(v, t, OutputAfter(s, t), ExitAfter(s.exit, t));
    assert after == Ticked(s, t);
    forall i | 0 <= i < |v|
      ensures v[i].id == Present(s, t)[i].id && v[i].ops == Present(s, t)[i].ops
    {
      BroadcastAllLeaves(Present(s, t)[i], PtyIn(s, t).chunks);
    }
    SameOps(v, after, Present(s, t), after);
  }

  lemma {:induction false} SameOps(v: seq<ClientState>, read: seq<ClientState>,
                                   before: seq<ClientState>, after: seq<ClientState>)
    requires |v| == |read| == |before| == |after|
    requires forall i :: 0 <= i < |v| ==> v[i].id == before[i].id && v[i].ops == before[i].ops
    requires forall i :: 0 <= i < |v| ==> read[i].ops == after[i].ops
    ensures NewOps(v, read) == NewOps(before, after)
  {
    if v != [] {
      SameOps(v[1..], read[1..], before[1..], after[1..]);
    }
  }
}
