/** Every run of the server: the invariant of each client, lifted from a tick to all the
    reachable states, and the record of terminal operations. */
module Runs {
  import opened Protocol
  import opened Codec
  import opened Sending
  import opened Session
  import opened Invariant

  ghost predicate ClientsInv(s: ServerState) {
    && (forall c :: c in s.clients ==> !c.disconnected && ClientInv(c, s.pid, s.output, s.exit))
    && (forall c :: c in s.gone ==> c.disconnected && ClientInv(c, s.pid, s.output, s.exit))
  }

  predicate Increasing(cs: seq<ClientState>) {
    forall i, j :: 0 <= i < j < |cs| ==> cs[i].id < cs[j].id
  }

  ghost predicate IdInv(s: ServerState) {
    && Increasing(s.clients)
    && (forall c :: c in s.clients || c in s.gone ==> c.id < s.nextId)
    && (forall c, g :: c in s.clients && g in s.gone ==> c.id != g.id)
    && (forall g, h :: g in s.gone && h in s.gone && g.id == h.id ==> g == h)
  }

  ghost predicate Known(clients: seq<ClientState>, gone: seq<ClientState>, id: nat) {
    exists c :: (c in clients || c in gone) && c.id == id
  }

  /** Every name given out belongs to someone. */
  ghost predicate NamesInv(s: ServerState) {
    forall id: nat :: id < s.nextId ==> Known(s.clients, s.gone, id)
  }

  /** The part of the terminal record that came from one client. */
  function Project(log: seq<(nat, PtyOp)>, id: nat): seq<PtyOp> {
    if log == [] then []
    else (if log[0].0 == id then [log[0].1] else []) + Project(log[1..], id)
  }

  ghost predicate MasterInv(s: ServerState) {
    && (forall c :: c in s.clients || c in s.gone ==> Project(s.master, c.id) == c.ops)
    && (forall e :: e in s.master ==> e.0 < s.nextId)
  }

  ghost predicate Good(s: ServerState) { ClientsInv(s) && IdInv(s) && NamesInv(s) && MasterInv(s) }

  // -------------------------------------------------------------- the newcomers

  predicate IsNewcomer(c: ClientState, id: nat, pid: nat) {
    c == Newcomer(id, pid, c.inbox, c.out.writes)
  }

  lemma {:induction false} NewcomersAre(accepts: seq<Accepting>, id: nat, pid: nat)
    ensures forall i {:trigger Newcomers(accepts, id, pid)[i]} ::
              0 <= i < |Newcomers(accepts, id, pid)| ==> IsNewcomer(Newcomers(accepts, id, pid)[i], id + i, pid)
    decreases |accepts|
  {
    if accepts != [] && accepts[0].Connection? {
      var cs := Newcomers(accepts, id, pid);
      if accepts[0].nonblocking {
        var more := Newcomers(accepts[1..], id + 1, pid);
        NewcomersAre(accepts[1..], id + 1, pid);
        assert cs == [Newcomer(id, pid, accepts[0].inbox, accepts[0].writes)] + more;
        forall i | 0 <= i < |cs|
          ensures IsNewcomer(cs[i], id + i, pid)
        {
          if i > 0 {
            assert cs[i] == more[i - 1];
            assert IsNewcomer(more[i - 1], id + 1 + (i - 1), pid);
          }
        }
      } else {
        assert cs == Newcomers(accepts[1..], id, pid);
        NewcomersAre(accepts[1..], id, pid);
      }
    }
  }

  lemma NewcomerInv(id: nat, pid: nat, inbox: seq<ReadResult>, writes: seq<Write>, output: seq<byte>, exit: Option<i32>)
    ensures ClientInv(Newcomer(id, pid, inbox, writes), pid, output, exit)
  {
    var p := PidPacket(pid);
    AddPacket([], p);
    assert [] + [p] == [p];
    assert Payloads([], MSG_EXIT) == [] && DumpOut([]) == None && Contents([]) == [];
    assert Parse([]) == Parsed([], [], false);
  }

  /** Everyone present is fit for the tick, under a name of their own. */
  lemma PresentGood(s: ServerState, t: Tick)
    requires Good(s)
    ensures var cs := Present(s, t);
            && (forall c :: c in cs ==> !c.disconnected && ClientInv(c, s.pid, s.output, s.exit))
            && (forall c :: c in cs ==> c.id < s.nextId + |Newcomers(t.accepts, s.nextId, s.pid)|)
            && Increasing(cs)
            && (forall c :: c in cs ==> Project(s.master, c.id) == c.ops)
            && (forall c, g :: c in cs && g in s.gone ==> c.id != g.id)
  {
    hide ClientInv;
    var news := Newcomers(t.accepts, s.nextId, s.pid);
    NewcomersAre(t.accepts, s.nextId, s.pid);
    forall c | c in news
      ensures !c.disconnected && ClientInv(c, s.pid, s.output, s.exit) && c.ops == []
      ensures s.nextId <= c.id < s.nextId + |news| && Project(s.master, c.id) == []
    {
      var i :| 0 <= i < |news| && news[i] == c;
      assert IsNewcomer(news[i], s.nextId + i, s.pid);
      NewcomerInv(c.id, s.pid, c.inbox, c.out.writes, s.output, s.exit);
      NothingFrom(s.master, c.id);
    }
  }

  lemma {:induction false} NothingFrom(log: seq<(nat, PtyOp)>, id: nat)
    requires forall e :: e in log ==> e.0 != id
    ensures Project(log, id) == []
  {
    if log != [] {
      NothingFrom(log[1..], id);
    }
  }

  // -------------------------------------------------------------------- one tick

  lemma {:induction false} ReadPtyChunks(answers: seq<PtyRead>, chunks: seq<seq<byte>>)
    requires forall b :: b in chunks ==> |b| <= MAX_PAYLOAD
    ensures forall b :: b in ReadPty(answers, chunks).chunks ==> |b| <= MAX_PAYLOAD
    decreases |answers|
  {
    if answers != [] {
      match answers[0]
      case Output(bytes) =>
        if bytes != [] {
          ReadPtyChunks(answers[1..], chunks + [bytes]);
        }
      case PtyNotReady =>
      case PtyRetry => ReadPtyChunks(answers[1..], chunks);
      case PtyFailed =>
    }
  }

  lemma TickedKeeps(s: ServerState, t: Tick, i: nat)
    requires Good(s) && i < |Present(s, t)|
    ensures var c, d := Present(s, t)[i], Ticked(s, t)[i];
            d == ClientTick(c, IO(s, t, i)) && Continues(c, d)
            && ClientInv(d, s.pid, OutputAfter(s, t), ExitAfter(s.exit, t))
  {
    hide ClientInv, Continues, ClientTick;
    PresentGood(s, t);
    ReadPtyChunks(t.pty, []);
    ClientTickKeeps(Present(s, t)[i], IO(s, t, i), s.pid, s.output, s.exit);
  }

  /** A client that is gone keeps its invariant while output goes on. */
  lemma GoneKeeps(c: ClientState, pid: nat, output: seq<byte>, more: seq<byte>, exit: Option<i32>, exit': Option<i32>)
    requires ClientInv(c, pid, output, exit) && c.disconnected && ExitGrows(exit, exit')
    ensures ClientInv(c, pid, output + more, exit')
  {
    StreamGrows(output, more, c.replays);
    if |c.replays| == 1 && c.replays[0].at <= |output| {
      assert (output + more)[..c.replays[0].at] == output[..c.replays[0].at];
    }
  }

  lemma StepClients(s: ServerState, t: Tick)
    requires Good(s)
    ensures ClientsInv(Step(s, t))
  {
    hide ClientInv, ClientTick, Continues;
    var s', after := Step(s, t), Ticked(s, t);
    ConnectedMembers(after);
    forall c | c in after
      ensures ClientInv(c, s'.pid, s'.output, s'.exit)
    {
      var i :| 0 <= i < |after| && after[i] == c;
      TickedKeeps(s, t, i);
    }
    forall c | c in s.gone
      ensures ClientInv(c, s'.pid, s'.output, s'.exit)
    {
      GoneKeeps(c, s.pid, s.output, Flatten(PtyIn(s, t).chunks), s.exit, s'.exit);
    }
  }

  lemma {:induction false} FilterIncreasing(cs: seq<ClientState>)
    requires Increasing(cs)
    ensures Increasing(Connected(cs)) && Increasing(Dropped(cs))
  {
    if cs != [] {
      OthersLater(cs);
      hide Increasing;
      var rest := cs[1..];
      FilterIncreasing(rest);
      ConnectedMembers(rest);
      IncreasingCons(cs[0], Connected(rest));
      IncreasingCons(cs[0], Dropped(rest));
      assert [] + Connected(rest) == Connected(rest) && [] + Dropped(rest) == Dropped(rest);
    }
  }

  lemma IncreasingCons(c: ClientState, cs: seq<ClientState>)
    requires Increasing(cs) && forall d :: d in cs ==> c.id < d.id
    ensures Increasing([c] + cs)
  {
  }

  /** Ticking changes nobody's name. */
  lemma TickedIds(s: ServerState, t: Tick)
    requires Good(s)
    ensures var after := Ticked(s, t);
            && Increasing(after)
            && (forall i :: 0 <= i < |after| ==> after[i].id == Present(s, t)[i].id)
            && (forall c :: c in after ==> c.id < Step(s, t).nextId)
            && (forall c, g :: c in after && g in s.gone ==> c.id != g.id)
  {
    hide ClientInv, ClientTick;
    var before, after := Present(s, t), Ticked(s, t);
    PresentGood(s, t);
    forall i | 0 <= i < |after|
      ensures after[i].id == before[i].id && before[i] in before
    {
      TickedKeeps(s, t, i);
    }
  }

  lemma StepIds(s: ServerState, t: Tick)
    requires Good(s)
    ensures IdInv(Step(s, t))
  {
    hide ClientInv, ClientTick, Ticked, Present;
    var after := Ticked(s, t);
    TickedIds(s, t);
    FilterIncreasing(after);
    ConnectedMembers(after);
    DistinctIds(after);
  }

  /** Whoever is present is connected or gone after the tick. */
  lemma PresentKnown(s: ServerState, t: Tick, i: nat)
    requires Good(s) && i < |Present(s, t)|
    ensures Known(Step(s, t).clients, Step(s, t).gone, Present(s, t)[i].id)
  {
    hide ClientInv, ClientTick, Ticked, Present, Good;
    var d := Ticked(s, t)[i];
    TickedIds(s, t);
    ConnectedMembers(Ticked(s, t));
    assert d in Ticked(s, t);
  }

  lemma StepNames(s: ServerState, t: Tick)
    requires Good(s)
    ensures NamesInv(Step(s, t))
  {
    hide ClientInv, ClientTick, Ticked, Newcomer, ClientsInv, MasterInv;
    var s', news := Step(s, t), Newcomers(t.accepts, s.nextId, s.pid);
    NewcomersAre(t.accepts, s.nextId, s.pid);
    forall id: nat | id < s'.nextId
      ensures Known(s'.clients, s'.gone, id)
    {
      if id < s.nextId {
        assert Known(s.clients, s.gone, id);
        var c :| (c in s.clients || c in s.gone) && c.id == id;
        if c in s.clients {
          var i :| 0 <= i < |s.clients| && s.clients[i] == c;
          assert Present(s, t)[i] == c;
          PresentKnown(s, t, i);
        }
      } else {
        var k := id - s.nextId;
        assert IsNewcomer(news[k], s.nextId + k, s.pid);
        assert Present(s, t)[|s.clients| + k] == news[k];
        NewcomerId(news[k], id, s.pid);
        PresentKnown(s, t, |s.clients| + k);
      }
    }
  }

  lemma NewcomerId(c: ClientState, id: nat, pid: nat)
    requires IsNewcomer(c, id, pid)
    ensures c.id == id
  {
  }

  lemma DistinctIds(cs: seq<ClientState>)
    requires Increasing(cs)
    ensures forall c, d :: c in cs && d in cs && c.id == d.id ==> c == d
  {
  }

  // ------------------------------------------------- the record of the terminal

  lemma {:induction false} ProjectAppend(a: seq<(nat, PtyOp)>, b: seq<(nat, PtyOp)>, id: nat)
    ensures Project(a + b, id) == Project(a, id) + Project(b, id)
  {
    if a == [] {
      assert a + b == b;
    } else {
      assert (a + b)[1..] == a[1..] + b && (a + b)[0] == a[0];
      ProjectAppend(a[1..], b, id);
      var head := if a[0].0 == id then [a[0].1] else [];
      assert head + (Project(a[1..], id) + Project(b, id)) == (head + Project(a[1..], id)) + Project(b, id);
    }
  }

  lemma {:induction false} ProjectTagged(tag: nat, ops: seq<PtyOp>, id: nat)
    ensures Project(Tagged(tag, ops), id) == if tag == id then ops else []
    ensures forall e :: e in Tagged(tag, ops) ==> e.0 == tag
  {
    if ops != [] {
      ProjectTagged(tag, ops[1..], id);
    }
  }

  /** Of the operations of a tick, those of the client at index i, and of no one else. */
  lemma {:induction false} NewOpsOf(before: seq<ClientState>, after: seq<ClientState>, id: nat)
    requires |before| == |after| && Increasing(before)
    ensures (forall c :: c in before ==> c.id != id) ==> Project(NewOps(before, after), id) == []
    ensures forall i :: 0 <= i < |before| && before[i].id == id ==>
              Project(NewOps(before, after), id) == OpsSince(before[i], after[i])
    ensures forall e :: e in NewOps(before, after) ==> exists c :: c in before && c.id == e.0
  {
    hide Tagged, OpsSince, Project;
    if before == [] {
      NothingFrom([], id);
    } else {
      var ops := OpsSince(before[0], after[0]);
      var more := NewOps(before[1..], after[1..]);
      OthersLater(before);
      NewOpsOf(before[1..], after[1..], id);
      ProjectAppend(Tagged(before[0].id, ops), more, id);
      ProjectTagged(before[0].id, ops, id);
      assert ops + [] == ops;
      forall i | 0 <= i < |before| && before[i].id == id
        ensures Project(NewOps(before, after), id) == OpsSince(before[i], after[i])
      {
        if i > 0 {
          assert before[1..][i - 1] == before[i] && after[1..][i - 1] == after[i] && before[i] in before[1..];
        }
      }
    }
  }

  lemma OthersLater(cs: seq<ClientState>)
    requires cs != [] && Increasing(cs)
    ensures Increasing(cs[1..]) && cs[0] in cs && forall c :: c in cs[1..] ==> c in cs && cs[0].id < c.id
  {
    forall c | c in cs[1..]
      ensures c in cs && cs[0].id < c.id
    {
      var i :| 0 <= i < |cs[1..]| && cs[1..][i] == c;
      assert cs[i + 1] == c;
    }
  }

  lemma MasterOf(s: ServerState, t: Tick, i: nat)
    requires Good(s) && i < |Ticked(s, t)|
    ensures var d := Ticked(s, t)[i];
            Project(Step(s, t).master, d.id) == d.ops
  {
    hide ClientInv, ClientTick, Ticked, Present, IdInv, ClientsInv, NewOps;
    var before, after := Present(s, t), Ticked(s, t);
    PresentGood(s, t);
    TickedKeeps(s, t, i);
    NewOpsOf(before, after, after[i].id);
    ProjectAppend(s.master, NewOps(before, after), after[i].id);
    assert before[i] in before && before[i].ops + after[i].ops[|before[i].ops|..] == after[i].ops;
  }

  lemma StepMaster(s: ServerState, t: Tick)
    requires Good(s)
    ensures MasterInv(Step(s, t))
  {
    hide ClientInv, ClientTick, Ticked, Present, NewOps;
    var before, after, s' := Present(s, t), Ticked(s, t), Step(s, t);
    PresentGood(s, t);
    ConnectedMembers(after);
    forall c | c in after
      ensures Project(s'.master, c.id) == c.ops
    {
      var i :| 0 <= i < |after| && after[i] == c;
      MasterOf(s, t, i);
    }
    forall g | g in s.gone
      ensures Project(s'.master, g.id) == g.ops
    {
      TickedIds(s, t);
      NewOpsOf(before, after, g.id);
      ProjectAppend(s.master, NewOps(before, after), g.id);
    }
    NewOpsOf(before, after, 0);
  }

  // -------------------------------------------------------------------- every run

  lemma StartGood(pid: nat, readPty: bool, clock: nat)
    ensures Good(Start(pid, readPty, clock))
  {
  }

  lemma StepGood(s: ServerState, t: Tick)
    requires Good(s)
    ensures Good(Step(s, t))
  {
    StepClients(s, t);
    StepIds(s, t);
    StepNames(s, t);
    StepMaster(s, t);
  }

  lemma {:induction false} RunGood(s: ServerState, ticks: seq<Tick>)
    requires Good(s)
    ensures Good(Run(s, ticks))
    decreases |ticks|
  {
    hide Good;
    if ticks != [] && !s.finished {
      StepGood(s, ticks[0]);
      RunGood(Step(s, ticks[0]), ticks[1..]);
    }
  }

  /** A state the server can be in at the end of a tick. */
  ghost predicate Reachable(s: ServerState) {
    exists pid, readPty, clock, ticks :: s == Run(Start(pid, readPty, clock), ticks)
  }

  lemma ReachableGood(s: ServerState)
    requires Reachable(s)
    ensures Good(s)
  {
    var pid, readPty, clock, ticks :| s == Run(Start(pid, readPty, clock), ticks);
    StartGood(pid, readPty, clock);
    RunGood(Start(pid, readPty, clock), ticks);
  }
}
