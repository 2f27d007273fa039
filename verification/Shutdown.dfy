/** Once the child has exited the server returns within the drain deadline, even if no peer
    ever reads another byte. */
module Shutdown {
  import opened Protocol
  import opened Codec
  import opened Sending
  import opened Session
  import opened Invariant
  import opened Runs

  /** A monotonic clock: the readings of a tick lie between the end of the last and its own. */
  ghost predicate TimelyTick(clock: nat, t: Tick) {
    && clock <= t.now
    && (forall i :: clock <= t.dumpClock(i) <= t.now)
    && (forall i :: clock <= t.exitClock(i) <= t.now)
  }

  ghost predicate Timely(clock: nat, ticks: seq<Tick>)
    decreases |ticks|
  {
    ticks == [] || (TimelyTick(clock, ticks[0]) && Timely(ticks[0].now, ticks[1..]))
  }

  /** Every time to close has passed. */
  predicate ClosedBy(cs: seq<ClientState>, time: nat) {
    forall c :: c in cs && c.closeAt.Some? ==> c.closeAt.value <= time
  }

  /** A client held open only until its queue drains. */
  predicate Waiting(c: ClientState, now: nat) {
    !c.disconnected && c.closeAt.Some? && c.out.queue != [] && now < c.closeAt.value + 5_000_000_000
  }

  // -------------------------------------------------------------- one client

  lemma {:induction false} HandleAllCloses(c: ClientState, ps: seq<Packet>, output: seq<byte>, now: nat)
    ensures var d := HandleAll(c, ps, output, now);
            d.closeAt == c.closeAt || (c.closeAt.None? && d.closeAt == Some(now))
    decreases |ps|
  {
    if ps != [] {
      HandleAllCloses(Handle(c, ps[0], output, now), ps[1..], output, now);
    }
  }

  lemma ServedCloses(c: ClientState, io: TickIO)
    ensures var d := Served(c, io);
            d.closeAt == c.closeAt || (c.closeAt.None? && d.closeAt == Some(io.dumpAt))
  {
    hide Handle;
    var b := BroadcastAll(c, io.chunks);
    BroadcastAllLeaves(c, io.chunks);
    var r := ReadSocket(b.inbox, []);
    if !r.ending.Failure? {
      var parsed := Parse(b.buf + r.bytes);
      var d := b.(inbox := r.inbox, buf := Leftover(parsed), fed := b.fed + r.bytes);
      HandleAllCloses(d, parsed.packets, io.output, io.dumpAt);
    }
  }

  /** A time to close is set once, to a reading of this tick's clock. */
  lemma TickCloses(c: ClientState, io: TickIO)
    ensures var d := ClientTick(c, io);
            && (c.closeAt.Some? ==> d.closeAt == c.closeAt)
            && (d.closeAt == c.closeAt || d.closeAt == Some(io.dumpAt) || d.closeAt == Some(io.exitAt))
            && (io.exit.Some? && !d.disconnected ==> Waiting(d, io.now))
  {
    hide Served;
    ServedCloses(c, io);
  }

  // -------------------------------------------------------------- the server

  lemma TickedCloses(s: ServerState, t: Tick, d: ClientState) returns (i: nat)
    requires d in Ticked(s, t)
    ensures i < |Present(s, t)| && d == ClientTick(Present(s, t)[i], IO(s, t, i))
  {
    i :| 0 <= i < |Ticked(s, t)| && Ticked(s, t)[i] == d;
  }

  lemma NewcomersOpen(s: ServerState, t: Tick, c: ClientState)
    requires c in Present(s, t)
    ensures c in s.clients || c.closeAt.None?
  {
    var news := Newcomers(t.accepts, s.nextId, s.pid);
    NewcomersAre(t.accepts, s.nextId, s.pid);
    if c in news {
      var i :| 0 <= i < |news| && news[i] == c;
      assert IsNewcomer(news[i], s.nextId + i, s.pid);
    }
  }

  lemma StepTime(s: ServerState, t: Tick)
    requires ClosedBy(s.clients, s.clock) && TimelyTick(s.clock, t)
    ensures ClosedBy(Step(s, t).clients, t.now)
  {
    hide ClientTick, Present, Ticked;
    forall d | d in Step(s, t).clients && d.closeAt.Some?
      ensures d.closeAt.value <= t.now
    {
      ConnectedMembers(Ticked(s, t));
      var i := TickedCloses(s, t, d);
      TickCloses(Present(s, t)[i], IO(s, t, i));
      NewcomersOpen(s, t, Present(s, t)[i]);
    }
  }

  /** After any tick with the child gone, whoever is left has something queued and a time to
      close less than five seconds old. */
  lemma StepWaits(s: ServerState, t: Tick)
    ensures var s' := Step(s, t);
            s'.exit.Some? ==> forall c :: c in s'.clients ==> Waiting(c, s'.clock)
  {
    hide ClientTick, Present, Ticked, Waiting;
    var s' := Step(s, t);
    if s'.exit.Some? {
      forall c | c in s'.clients
        ensures Waiting(c, s'.clock)
      {
        ConnectedMembers(Ticked(s, t));
        var i := TickedCloses(s, t, c);
        TickCloses(Present(s, t)[i], IO(s, t, i));
      }
    }
  }

  lemma {:induction false} RunWaits(s: ServerState, ticks: seq<Tick>)
    requires s.exit.Some? ==> forall c :: c in s.clients ==> Waiting(c, s.clock)
    ensures var s' := Run(s, ticks);
            s'.exit.Some? ==> forall c :: c in s'.clients ==> Waiting(c, s'.clock)
    decreases |ticks|
  {
    hide Step, Waiting;
    if ticks != [] && !s.finished {
      StepWaits(s, ticks[0]);
      RunWaits(Step(s, ticks[0]), ticks[1..]);
    }
  }

  /** In every reachable state with the child gone, each remaining client is waiting, so the
      server returns as soon as there is none. */
  lemma SurvivorsWait(s: ServerState, c: ClientState)
    requires Reachable(s) && s.exit.Some? && c in s.clients
    ensures Waiting(c, s.clock)
  {
    hide Waiting;
    var pid, readPty, clock, ticks :| s == Run(Start(pid, readPty, clock), ticks);
    RunWaits(Start(pid, readPty, clock), ticks);
  }

  // ------------------------------------------------------------ bounded shutdown

  predicate NoneJoin(t: Tick) { forall a :: a in t.accepts && a.Connection? ==> !a.nonblocking }

  lemma {:induction false} NoNewcomers(accepts: seq<Accepting>, id: nat, pid: nat)
    requires forall a :: a in accepts && a.Connection? ==> !a.nonblocking
    ensures Newcomers(accepts, id, pid) == []
    decreases |accepts|
  {
    if accepts != [] {
      assert accepts[0] in accepts;
      NoNewcomers(accepts[1..], id, pid);
    }
  }

  /** The child is gone and every client left was told to close by `time`. */
  predicate Closing(s: ServerState, time: nat) {
    s.exit.Some? && forall c :: c in s.clients ==> c.closeAt.Some? && c.closeAt.value <= time
  }

  lemma StepClosing(s: ServerState, t: Tick, time: nat)
    requires Closing(s, time) && NoneJoin(t)
    ensures Closing(Step(s, t), time)
    ensures t.now >= time + 5_000_000_000 ==> Step(s, t).finished
  {
    hide ClientTick;
    NoNewcomers(t.accepts, s.nextId, s.pid);
    assert Present(s, t) == s.clients;
    var s' := Step(s, t);
    ConnectedMembers(Ticked(s, t));
    forall d | d in s'.clients
      ensures d.closeAt.Some? && d.closeAt.value <= time
    {
      var i := TickedCloses(s, t, d);
      TickCloses(s.clients[i], IO(s, t, i));
    }
    if s'.clients != [] {
      var d := s'.clients[0];
      var i := TickedCloses(s, t, d);
      TickCloses(s.clients[i], IO(s, t, i));
    }
  }

  lemma {:induction false} ClosingFinishes(s: ServerState, ticks: seq<Tick>, time: nat)
    requires Closing(s, time) && forall t :: t in ticks ==> NoneJoin(t)
    requires ticks != [] && Last(ticks).now >= time + 5_000_000_000
    ensures Run(s, ticks).finished
    decreases |ticks|
  {
    hide Closing, Step;
    if !s.finished {
      assert ticks[0] in ticks;
      StepClosing(s, ticks[0], time);
      if |ticks| > 1 {
        assert Last(ticks[1..]) == Last(ticks);
        ClosingFinishes(Step(s, ticks[0]), ticks[1..], time);
      }
    }
  }

  /** Bounded shutdown: from any state in which no time to close lies in the future, if the
      child is gone, or the next tick is told so or to shut down, and nobody joins after it,
      the loop has returned by the first tick whose clock is five seconds on, whatever the
      peers do. */
  lemma BoundedShutdown(s: ServerState, ticks: seq<Tick>)
    requires ClosedBy(s.clients, s.clock) && Timely(s.clock, ticks)
    requires |ticks| > 1 && (s.exit.Some? || ticks[0].shutdown || ticks[0].wait.Some?)
    requires forall t :: t in ticks[1..] ==> NoneJoin(t)
    requires Last(ticks).now >= ticks[0].now + 5_000_000_000
    ensures Run(s, ticks).finished
  {
    hide Waiting, TimelyTick, NoneJoin;
    if !s.finished {
      var s' := Step(s, ticks[0]);
      StepTime(s, ticks[0]);
      StepWaits(s, ticks[0]);
      forall c | c in s'.clients
        ensures c.closeAt.Some?
      {
        assert Waiting(c, s'.clock);
        WaitingCloses(c, s'.clock);
      }
      assert Last(ticks[1..]) == Last(ticks);
      ClosingFinishes(s', ticks[1..], ticks[0].now);
    }
  }

  lemma WaitingCloses(c: ClientState, now: nat)
    requires Waiting(c, now)
    ensures c.closeAt.Some?
  {
  }

  /** The first hypothesis of the above holds throughout a run on a monotonic clock. */
  lemma {:induction false} RunTime(s: ServerState, ticks: seq<Tick>)
    requires ClosedBy(s.clients, s.clock) && Timely(s.clock, ticks)
    ensures ClosedBy(Run(s, ticks).clients, Run(s, ticks).clock)
    decreases |ticks|
  {
    if ticks != [] && !s.finished {
      StepTime(s, ticks[0]);
      RunTime(Step(s, ticks[0]), ticks[1..]);
    }
  }
}
