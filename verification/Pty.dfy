/** The server's side of the pseudo-terminal: what it reads from it, and what its clients get
    to do to it, each against a reading of its own. */
module Pty {
  import opened Protocol
  import opened Codec
  import opened Sending
  import opened Session
  import opened Invariant
  import opened Runs
  import opened Theorems
  import opened Lifetime

  // ------------------------------------------------------- reading the terminal

  /** The bytes a list of answers delivers. */
  function Shown(answers: seq<PtyRead>): seq<byte> {
    if answers == [] then []
    else (if answers[0].Output? then answers[0].bytes else []) + Shown(answers[1..])
  }

  /** End of file or an error: nothing more is read until someone connects. */
  predicate Closes(a: PtyRead) { a == Output([]) || a.PtyFailed? }

  /** An answer after which the loop stops reading for now. */
  predicate Stopping(a: PtyRead) { Closes(a) || a.PtyNotReady? }

  /** The first k answers are those the loop takes: up to the first that stops it. */
  ghost predicate TakesFirst(answers: seq<PtyRead>, k: nat) {
    && k <= |answers|
    && (forall j :: 0 <= j < k - 1 ==> !Stopping(answers[j]))
    && (k < |answers| ==> k > 0 && Stopping(answers[k - 1]))
  }

  lemma ShownCons(a: PtyRead, more: seq<PtyRead>)
    ensures Shown([a] + more) == (if a.Output? then a.bytes else []) + Shown(more)
    ensures Shown([]) == []
  {
    assert ([a] + more)[1..] == more;
  }

  lemma {:induction false} PtyTakes(answers: seq<PtyRead>, chunks: seq<seq<byte>>) returns (k: nat)
    ensures TakesFirst(answers, k)
    ensures var r := ReadPty(answers, chunks);
            && Flatten(r.chunks) == Flatten(chunks) + Shown(answers[..k])
            && (r.readPty <==> k == 0 || !Closes(answers[k - 1]))
    decreases |answers|
  {
    hide Shown, Flatten;
    if answers == [] {
      ShownCons(PtyNotReady, []);
      assert answers[..0] == [];
      return 0;
    }
    var a := answers[0];
    assert answers == [a] + answers[1..] && answers[..1] == [a] + [];
    ShownCons(a, []);
    if Stopping(a) {
      return 1;
    }
    var next := if a.Output? then chunks + [a.bytes] else chunks;
    assert ReadPty(answers, chunks) == ReadPty(answers[1..], next);
    k := PtyTakes(answers[1..], next);
    if a.Output? {
      FlattenAppend(chunks, [a.bytes]);
      FlattenOne(a.bytes);
    }
    ShownCons(a, answers[1..][..k]);
    assert answers[..k + 1] == [a] + answers[1..][..k];
    assert forall j :: 0 < j < |answers| ==> answers[j] == answers[1..][j - 1];
    k := k + 1;
  }

  /** Reading is on if it was, or if somebody has just connected. */
  ghost predicate Reading(s: ServerState, t: Tick) {
    s.readPty || exists j :: Joins(t.accepts, j)
  }

  /** What a tick adds to the output is what the terminal delivers before the first answer that
      stops the loop; only end of file and errors turn reading off, a mere lack of output does
      not. */
  lemma TerminalRead(s: ServerState, t: Tick) returns (k: nat)
    ensures Reading(s, t) ==>
              && TakesFirst(t.pty, k)
              && Step(s, t).output == s.output + Shown(t.pty[..k])
              && (Step(s, t).readPty <==> k == 0 || !Closes(t.pty[k - 1]))
    ensures !Reading(s, t) ==> Step(s, t).output == s.output && !Step(s, t).readPty
  {
    hide Shown, Ticked, NewOps, ReadPty, Newcomers, Joins;
    JoinsIff(t.accepts, s.nextId, s.pid);
    k := PtyTakes(t.pty, []);
    assert Flatten([]) == [] && [] + Shown(t.pty[..k]) == Shown(t.pty[..k]);
  }

  // ------------------------------------------------------ writing the terminal

  /** An attach request whose flags word is odd, that is, read-only. */
  predicate ReadOnly(p: Packet) {
    p.typ == MSG_ATTACH && |p.payload| >= 4 && p.payload[0] % 2 == 1
  }

  predicate Types(p: Packet) { p.typ == MSG_CONTENT || p.typ == MSG_SEND_KEYS }

  predicate Resizes(p: Packet) { p.typ == MSG_RESIZE && |p.payload| >= 4 }

  /** Two bytes, the low one first. */
  function Short(low: byte, high: byte): nat { low + 0x100 * high }

  /** What one packet does to the terminal. */
  function Effect(p: Packet, readOnly: bool): seq<PtyOp> {
    if Types(p) && !readOnly then [Input(p.payload)]
    else if Resizes(p) then [Winsize(Short(p.payload[0], p.payload[1]), Short(p.payload[2], p.payload[3]))]
    else []
  }

  /** Whether the client is read-only from then on. */
  predicate Mode(p: Packet, readOnly: bool) { if p.typ == MSG_ATTACH then ReadOnly(p) else readOnly }

  /** What a client's packets do to the terminal: a client types while the last of its attach
      requests, if any, was not read-only; it resizes in any case. */
  function Effects(ps: seq<Packet>, readOnly: bool): seq<PtyOp> {
    if ps == [] then [] else Effect(ps[0], readOnly) + Effects(ps[1..], Mode(ps[0], readOnly))
  }

  /** Whether the last attach request was read-only. */
  predicate LastReadOnly(ps: seq<Packet>, readOnly: bool) {
    if ps == [] then readOnly else LastReadOnly(ps[1..], Mode(ps[0], readOnly))
  }

  lemma {:induction false} EffectsLast(ps: seq<Packet>, p: Packet, readOnly: bool)
    ensures LastReadOnly(ps + [p], readOnly) == Mode(p, LastReadOnly(ps, readOnly))
    ensures Effects(ps + [p], readOnly) == Effects(ps, readOnly) + Effect(p, LastReadOnly(ps, readOnly))
    decreases |ps|
  {
    hide Effect, Mode;
    if ps == [] {
      assert [] + [p] == [p] && [p][1..] == [];
    } else {
      assert (ps + [p])[1..] == ps[1..] + [p] && (ps + [p])[0] == ps[0];
      EffectsLast(ps[1..], p, Mode(ps[0], readOnly));
    }
  }

  lemma ShortIs(b: seq<byte>)
    requires |b| == 2
    ensures Value(b) == Short(b[0], b[1])
  {
    assert Value(b[1..]) == b[1] by { assert b[1..][1..] == [] && Value([]) == 0; }
  }

  /** The low bit of an integer is the low bit of its first byte. */
  lemma LowBit(b: seq<byte>)
    requires |b| >= 4
    ensures ReadU32(b).Some? && ReadU32(b).value % 2 == b[0] % 2
  {
    assert Value(b[..4]) == Value(b[..4][1..]) * 0x100 + b[0];
  }

  lemma OneEffect(flags: u32, p: Packet, readOnly: bool)
    requires readOnly <==> flags % 2 == 1
    ensures OpOf(flags, p) == Effect(p, readOnly)
  {
    if Resizes(p) {
      ShortIs(p.payload[..2]);
      ShortIs(p.payload[2..4]);
    }
  }

  lemma {:induction false} OpsAre(ps: seq<Packet>)
    ensures FlagsAfter(ps) % 2 == 1 <==> LastReadOnly(ps, false)
    ensures OpsOf(ps) == Effects(ps, false)
    decreases |ps|
  {
    hide OpOf, ReadU32, Effect, Effects, ReadOnly, LastReadOnly;
    if ps == [] {
      NoEffects();
    } else {
      var before, p := Init(ps), Last(ps);
      assert before + [p] == ps;
      OpsAre(before);
      AskedAppend(before, p);
      EffectsLast(before, p, false);
      OneEffect(FlagsAfter(before), p, LastReadOnly(before, false));
      if p.typ == MSG_ATTACH {
        AttachFlags(p);
      }
    }
  }

  lemma NoEffects()
    ensures Effects([], false) == [] && !LastReadOnly([], false)
  {
  }

  lemma AttachFlags(p: Packet)
    requires p.typ == MSG_ATTACH
    ensures (if ReadU32(p.payload).Some? then ReadU32(p.payload).value else 0) % 2 == 1 <==> ReadOnly(p)
  {
    if |p.payload| >= 4 {
      LowBit(p.payload);
    }
  }

  /** The terminal record under a client's name is exactly what its packets do to the terminal,
      in their order. */
  lemma InputRules(s: ServerState, c: ClientState)
    requires Member(s, c)
    ensures Project(s.master, c.id) == Effects(c.decoded, false)
  {
    InputIntegrity(s, c);
    OpsAre(c.decoded);
  }

  lemma {:induction false} ReadOnlyEffects(ps: seq<Packet>)
    requires forall p :: p in ps && p.typ == MSG_ATTACH ==> ReadOnly(p)
    ensures Written(Effects(ps, true)) == []
  {
    hide Types, Resizes, ReadOnly;
    if ps != [] {
      assert ps[0] in ps && forall p :: p in ps[1..] ==> p in ps;
      ReadOnlyEffects(ps[1..]);
      assert Effects(ps, true) == Effects(ps[1..], true) || Effects(ps, true)[1..] == Effects(ps[1..], true);
    }
  }

  /** A client that attaches read-only before anything else, and never otherwise, types nothing. */
  lemma ReadOnlyTypesNothing(s: ServerState, c: ClientState)
    requires Member(s, c)
    requires c.decoded != [] ==> c.decoded[0].typ == MSG_ATTACH
    requires forall p :: p in c.decoded && p.typ == MSG_ATTACH ==> ReadOnly(p)
    ensures Written(Project(s.master, c.id)) == []
  {
    hide ReadOnly, Member;
    InputRules(s, c);
    var ps := c.decoded;
    if ps != [] {
      assert ps[0] in ps && forall p :: p in ps[1..] ==> p in ps;
      ReadOnlyEffects(ps[1..]);
      assert Effects(ps, false) == [] + Effects(ps[1..], true) == Effects(ps[1..], true);
    } else {
      NoEffects();
      assert Written([]) == [];
    }
  }

  /** The payloads of the packets that type, of either kind. */
  function TypedBy(ps: seq<Packet>): seq<seq<byte>> {
    if ps == [] then [] else (if Types(ps[0]) then [ps[0].payload] else []) + TypedBy(ps[1..])
  }

  lemma {:induction false} WriterEffects(ps: seq<Packet>)
    requires forall p :: p in ps ==> !ReadOnly(p)
    ensures Written(Effects(ps, false)) == TypedBy(ps)
  {
    hide Types, Resizes, ReadOnly;
    if ps != [] {
      assert ps[0] in ps && forall p :: p in ps[1..] ==> p in ps;
      WriterEffects(ps[1..]);
      assert Effects(ps, false) == Effects(ps[1..], false) || Effects(ps, false)[1..] == Effects(ps[1..], false);
    }
  }

  /** A client that never attaches read-only types all its content and all its keys, in order. */
  lemma WriterTypesAll(s: ServerState, c: ClientState)
    requires Member(s, c) && forall p :: p in c.decoded ==> !ReadOnly(p)
    ensures Written(Project(s.master, c.id)) == TypedBy(c.decoded)
  {
    hide ReadOnly, Member, Types, Resizes;
    InputRules(s, c);
    WriterEffects(c.decoded);
  }

  /** The records of four clients: a read-only one that resizes to twenty-four rows of eighty
      columns; one whose size is a byte short; a read-only one that types; and one that types,
      attaches read-only, types, attaches again and types. */
  lemma FourClients(s: ServerState, c: ClientState)
    requires Member(s, c)
    ensures var ro, rw, q := Packet(MSG_ATTACH, [1, 0, 0, 0]), Packet(MSG_ATTACH, []), Packet(MSG_CONTENT, [113]);
            var ops := Project(s.master, c.id);
            && (c.decoded == [ro, Packet(MSG_RESIZE, [24, 0, 80, 0])] ==> ops == [Winsize(24, 80)])
            && (c.decoded == [Packet(MSG_RESIZE, [24, 0, 80])] ==> ops == [])
            && (c.decoded == [ro, q] ==> ops == [])
            && (c.decoded == [q, ro, q, rw, Packet(MSG_SEND_KEYS, [3])] ==> ops == [Input([113]), Input([3])])
  {
    hide Member, Effects;
    InputRules(s, c);
    var ro, rw, q := Packet(MSG_ATTACH, [1, 0, 0, 0]), Packet(MSG_ATTACH, []), Packet(MSG_CONTENT, [113]);
    TwoEffects(ro, Packet(MSG_RESIZE, [24, 0, 80, 0]));
    TwoEffects(ro, q);
    TwoEffects(ro, Packet(MSG_RESIZE, [24, 0, 80]));
    var keys := Packet(MSG_SEND_KEYS, [3]);
    assert [q, ro, q, rw, keys] == [q] + ([ro] + ([q] + ([rw] + ([keys] + []))));
    EffectsFirst(keys, [], false);
    EffectsFirst(rw, [keys] + [], true);
    EffectsFirst(q, [rw] + ([keys] + []), true);
    EffectsFirst(ro, [q] + ([rw] + ([keys] + [])), false);
    EffectsFirst(q, [ro] + ([q] + ([rw] + ([keys] + []))), false);
  }

  lemma EffectsFirst(p: Packet, more: seq<Packet>, readOnly: bool)
    ensures Effects([p] + more, readOnly) == Effect(p, readOnly) + Effects(more, Mode(p, readOnly))
    ensures Effects([], readOnly) == []
  {
    assert ([p] + more)[1..] == more;
  }

  lemma TwoEffects(p: Packet, q: Packet)
    ensures Effects([q], false) == Effect(q, false)
    ensures Effects([p, q], false) == Effect(p, false) + Effect(q, Mode(p, false))
  {
    hide Effect;
    EffectsFirst(p, [q], false);
    EffectsFirst(q, [], Mode(p, false));
    EffectsFirst(q, [], false);
    assert [p, q] == [p] + [q] && [q] == [q] + [];
  }

  // ---------------------------------------------------------------- their order

  predicate Sorted(log: seq<(nat, PtyOp)>) {
    forall i, j :: 0 <= i < j < |log| ==> log[i].0 <= log[j].0
  }

  lemma {:induction false} NewOpsSorted(before: seq<ClientState>, after: seq<ClientState>)
    requires |before| == |after| && Increasing(before)
    ensures Sorted(NewOps(before, after))
  {
    hide Tagged, OpsSince, Project;
    if before != [] {
      var ops, more := OpsSince(before[0], after[0]), NewOps(before[1..], after[1..]);
      OthersLater(before);
      NewOpsSorted(before[1..], after[1..]);
      NewOpsOf(before[1..], after[1..], 0);
      ProjectTagged(before[0].id, ops, 0);
    }
  }

  /** In a tick the clients get at the terminal one after the other, in the order they came. */
  lemma RecordInOrder(s: ServerState, t: Tick)
    requires Good(s)
    ensures s.master <= Step(s, t).master && Sorted(Step(s, t).master[|s.master|..])
  {
    hide ClientInv, Present, Ticked, NewOps, Sorted;
    PresentGood(s, t);
    NewOpsSorted(Present(s, t), Ticked(s, t));
    assert (s.master + NewOps(Present(s, t), Ticked(s, t)))[|s.master|..] == NewOps(Present(s, t), Ticked(s, t));
  }
}
