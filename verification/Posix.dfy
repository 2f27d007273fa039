/** The write loops over a descriptor: C's `write_all`, with which the C server sends packets
    straight to a non-blocking socket, and Rust's `fd_write_all` for the terminal. */
module Posix {
  import opened Protocol
  import opened Codec
  import opened Sending

  /** Why a write loop stops. */
  datatype Stop = AllWritten | AtBlock | AtZero | AtError

  /** How many bytes get written, why the loop stops, and the answers it has not used. */
  datatype Outcome = Outcome(written: nat, stop: Stop, left: seq<WriteResult>)

  /** Writing `len` bytes. After the answers given, every write takes all it is offered. */
  function WriteLoop(len: nat, answers: seq<WriteResult>): (r: Outcome)
    ensures r.written <= len && (r.stop == AllWritten <==> r.written == len)
    decreases |answers|
  {
    if len == 0 || answers == [] then Outcome(len, AllWritten, answers)
    else
      match answers[0]
      case Accept(n) =>
        if n == 0 then Outcome(0, AtZero, answers[1..])
        else
          var k := Min(n, len);
          var r := WriteLoop(len - k, answers[1..]);
          r.(written := k + r.written)
      case WouldBlock => Outcome(0, AtBlock, answers[1..])
      case Interrupted => WriteLoop(len, answers[1..])
      case Failed => Outcome(0, AtError, answers[1..])
  }

  predicate StopsWriting(a: WriteResult) { a == Accept(0) || a.WouldBlock? || a.Failed? }

  function StopOf(a: WriteResult): Stop {
    if a.WouldBlock? then AtBlock else if a.Failed? then AtError else AtZero
  }

  /** How many bytes the kernel offers to take before it first refuses; without limit when no
      answer refuses. */
  function Room(answers: seq<WriteResult>): Option<nat> {
    if answers == [] then None
    else if StopsWriting(answers[0]) then Some(0)
    else
      var more := Room(answers[1..]);
      if more.None? then None
      else Some((if answers[0].Accept? then answers[0].n else 0) + more.value)
  }

  predicate HasRoom(answers: seq<WriteResult>, len: nat) {
    Room(answers).None? || Room(answers).value >= len
  }

  /** A write loop writes as much as there is room for, and stops short at a refusal, the last
      answer it used; the answers it leaves are the end of those it was given. */
  lemma {:induction false} WritesTheRoom(len: nat, answers: seq<WriteResult>)
    ensures var r := WriteLoop(len, answers);
            && r.written == (if HasRoom(answers, len) then len else Room(answers).value)
            && |r.left| <= |answers| && r.left == answers[|answers| - |r.left|..]
            && (r.stop != AllWritten ==>
                  && |r.left| < |answers|
                  && StopsWriting(answers[|answers| - |r.left| - 1])
                  && r.stop == StopOf(answers[|answers| - |r.left| - 1]))
    decreases |answers|
  {
    if len != 0 && answers != [] && !StopsWriting(answers[0]) {
      var k := if answers[0].Accept? then Min(answers[0].n, len) else 0;
      WritesTheRoom(len - k, answers[1..]);
    }
  }

  function Results(writes: seq<Write>): seq<WriteResult> {
    if writes == [] then [] else [writes[0].result] + Results(writes[1..])
  }

  /** The flush of a send queue that lies in one piece moves exactly as much as there is room for,
      too; after the answers given the kernel blocks. */
  lemma {:induction false} FlushFillsRoom(o: Outbox)
    requires forall w :: w in o.writes ==> w.split >= |o.queue|
    ensures var answers := Results(o.writes) + [WouldBlock];
            && Room(answers).Some?
            && |Flush(o).box.queue| == |o.queue| - Min(|o.queue|, Room(answers).value)
    decreases |o.writes|
  {
    var answers := Results(o.writes) + [WouldBlock];
    if o.writes == [] {
      assert answers == [WouldBlock];
    } else {
      var w, rest := o.writes[0], Results(o.writes[1..]) + [WouldBlock];
      assert answers == [w.result] + rest && answers[1..] == rest;
      assert w in o.writes;
      if o.queue == [] {
        FlushFillsRoom(o.(writes := o.writes[1..]));
      } else if WriteFront(o).Again? {
        FlushFillsRoom(WriteFront(o).box);
      } else {
        assert StopsWriting(w.result);
      }
    }
  }

  class Descriptor {
    var answers: seq<WriteResult>
    var wire: seq<byte>

    constructor (answers: seq<WriteResult>)
      ensures this.answers == answers && wire == []
    {
      this.answers, wire := answers, [];
    }

    /** The common loop: C returns the count (or -1 on an error), Rust an error unless all is
        written. By `WritesTheRoom` it writes exactly as much as there is room for. */
    method WriteAll(buf: seq<byte>) returns (written: nat, stop: Stop)
      modifies this
      ensures Outcome(written, stop, answers) == WriteLoop(|buf|, old(answers))
      ensures written <= |buf| && wire == old(wire) + buf[..written]
    {
      var rest := buf;
      written := 0;
      while rest != []
        invariant written + |rest| == |buf| && rest == buf[written..]
        invariant wire == old(wire) + buf[..written]
        invariant var r := WriteLoop(|rest|, answers);
                  WriteLoop(|buf|, old(answers)) == r.(written := written + r.written)
        decreases |answers|, |rest|
      {
        if answers == [] {
          wire := wire + rest;
          assert buf[..written] + rest == buf[..|buf|];
          return |buf|, AllWritten;
        }
        var a := answers[0];
        answers := answers[1..];
        match a
        case Accept(n) =>
          if n == 0 {
            return written, AtZero;
          }
          var k := Min(n, |rest|);
          assert buf[..written] + rest[..k] == buf[..written + k];
          wire := wire + rest[..k];
          rest, written := rest[k..], written + k;
        case WouldBlock => return written, AtBlock;
        case Interrupted =>
        case Failed => return written, AtError;
      }
      stop := AllWritten;
    }

    /** C's `send_packet`: true exactly when there is room for the whole frame. What there was
        room for stays on the wire. */
    method CSendPacket(pkt: Packet) returns (ok: bool)
      modifies this
      ensures !Fits(pkt) ==> !ok && wire == old(wire) && answers == old(answers)
      ensures Fits(pkt) ==>
                && ok == HasRoom(old(answers), |Encode(pkt)|)
                && wire == old(wire) + Through(pkt, old(answers))
                && answers == WriteLoop(|Encode(pkt)|, old(answers)).left
    {
      if |Encode(pkt)| > 8 + MAX_PAYLOAD {
        return false;
      }
      WritesTheRoom(|Encode(pkt)|, answers);
      var _, stop := WriteAll(Encode(pkt));
      ok := stop == AllWritten;
    }
  }

  /** The part of a frame that there is room for. */
  function Through(p: Packet, answers: seq<WriteResult>): seq<byte> {
    if HasRoom(answers, |Encode(p)|) then Encode(p) else Encode(p)[..Room(answers).value]
  }

  /** The frames `ps` and nothing else. */
  ghost predicate ReadsAs(wire: seq<byte>, ps: seq<Packet>) { Parse(wire) == Parsed(ps, [], false) }

  /** Without the queue frames are torn, exactly when the kernel refuses within one: whatever
      whole frame is sent next, the receiver reads the frames sent (the first if it went
      through, and the next) precisely if there was room for all of the first or for none. */
  lemma TornUnlessWhole(p: Packet, answers: seq<WriteResult>)
    requires Fits(p)
    ensures var sent := if HasRoom(answers, |Encode(p)|) then [p] else [];
            (forall q :: Fits(q) ==> ReadsAs(Through(p, answers) + Encode(q), sent + [q]))
            <==> HasRoom(answers, |Encode(p)|) || Room(answers) == Some(0)
  {
    var w := Through(p, answers);
    if HasRoom(answers, |Encode(p)|) {
      forall q | Fits(q)
        ensures ReadsAs(w + Encode(q), [p] + [q])
      {
        OneFrame(q);
        ParseFrame(p, Encode(q));
      }
    } else if Room(answers) == Some(0) {
      forall q | Fits(q)
        ensures ReadsAs(w + Encode(q), [] + [q])
      {
        OneFrame(q);
        assert w + Encode(q) == Encode(q) && [] + [q] == [q];
      }
    } else {
      var q := Packet(MSG_CONTENT, []);
      assert Fits(q) && |w| > 0;
      OneFrame(q);
      ParseShape(w + Encode(q));
      var r := Parse(w + Encode(q));
      assert |EncodeAll(r.packets) + r.rest| == |w| + |Encode(q)| && |EncodeAll([q]) + []| == |Encode(q)|;
      assert [] + [q] == [q];
      assert !ReadsAs(w + Encode(q), [] + [q]);
    }
  }

  lemma OneFrame(q: Packet)
    requires Fits(q)
    ensures EncodeAll([q]) == Encode(q)
    ensures ReadsAs(Encode(q), [q])
  {
    assert [q][1..] == [] && EncodeAll([]) == [];
    assert Encode(q) + [] == Encode(q);
    ParseEncoded([q]);
  }

  /** The smallest case: one byte goes through and the kernel blocks. The send fails, the next
      one, of the same packet, succeeds, and the receiver reads a packet nobody sent. */
  lemma TornFrame()
    ensures var p := Packet(MSG_DETACH, []);
            var r := WriteLoop(|Encode(p)|, [Accept(1), WouldBlock]);
            && r == Outcome(1, AtBlock, [])
            && WriteLoop(|Encode(p)|, r.left).stop == AllWritten
            && Through(p, [Accept(1), WouldBlock]) + Through(p, r.left) == [2, 2, 0, 0, 0, 0, 0, 0, 0]
            && Parse([2, 2, 0, 0, 0, 0, 0, 0, 0]).packets == [Packet(514, [])]
  {
    hide Parse, Encode, LittleEndian;
    var answers := [Accept(1), WouldBlock];
    assert answers[1..] == [WouldBlock] && [WouldBlock][1..] == [];
    assert WriteLoop(7, [WouldBlock]) == Outcome(0, AtBlock, []);
    assert WriteLoop(8, answers) == Outcome(1, AtBlock, []);
    assert Room([WouldBlock]) == Some(0) && Room(answers) == Some(1);
    SmallFrame(Packet(MSG_DETACH, []));
    StrangeFrame();
  }

  lemma StrangeFrame()
    ensures Parse([2, 2, 0, 0, 0, 0, 0, 0, 0]).packets == [Packet(514, [])]
  {
    hide Parse;
    var q := Packet(514, []);
    SmallInteger(0);
    assert U32Bytes(514) == [2, 2, 0, 0] by { assert LittleEndian(2, 3) == [2, 0, 0]; ZeroBytes(2); }
    assert Encode(q) + [0] == [2, 2, 0, 0, 0, 0, 0, 0, 0];
    ParseFrame(q, [0]);
    LoneByte();
    assert [q] + [] == [q];
  }

  lemma LoneByte()
    ensures Parse([0]).packets == []
  {
  }
}
