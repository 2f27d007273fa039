/** The history of terminal output, twice: the Rust deque and the C ring. Both hold the
    last `HISTORY_CAP` bytes of everything ever appended, which `all` remembers. */
module History {
  import opened Protocol

  class Deque {
    var bytes: seq<byte>
    ghost var all: seq<byte>

    ghost predicate Valid()
      reads this
    {
      bytes == Window(all)
    }

    constructor ()
      ensures Valid() && all == []
    {
      bytes, all := [], [];
    }

    method Append(data: seq<byte>)
      requires Valid()
      modifies this
      ensures Valid() && all == old(all) + data
    {
      ghost var before := bytes;
      LastNAbsorbs(all, data, HISTORY_CAP);
      all := all + data;
      if |data| >= HISTORY_CAP {
        bytes := data[|data| - HISTORY_CAP..];
        assert bytes == LastN(before + data, HISTORY_CAP);
        return;
      }
      while |bytes| + |data| > HISTORY_CAP
        invariant |bytes| <= |before| && bytes == LastN(before, |bytes|)
        invariant |bytes| + |data| >= Min(|before| + |data|, HISTORY_CAP)
        invariant all == old(all) + data
        decreases |bytes|
      {
        bytes := bytes[1..];
      }
      KeptAndNew(before, bytes, data);
      bytes := bytes + data;
    }

    method Snapshot() returns (snap: seq<byte>)
      requires Valid()
      ensures snap == Window(all)
    {
      snap := bytes;
    }
  }

  lemma KeptAndNew(before: seq<byte>, kept: seq<byte>, data: seq<byte>)
    requires |kept| <= |before| && kept == LastN(before, |kept|)
    requires Min(|before| + |data|, HISTORY_CAP) <= |kept| + |data| <= HISTORY_CAP
    ensures kept + data == LastN(before + data, HISTORY_CAP)
  {
  }

  /** `i % HISTORY_CAP`; every index the ring computes is below twice its size. */
  function Wrap(i: nat): (j: nat)
    requires i < 2 * HISTORY_CAP
    ensures j == i % HISTORY_CAP
  {
    if i < HISTORY_CAP then i else i - HISTORY_CAP
  }

  /** A ring read from `start` for `n` bytes, modulo its size. */
  ghost function ReadRing(d: seq<byte>, start: nat, n: nat): (s: seq<byte>)
    requires |d| == HISTORY_CAP && start < HISTORY_CAP && n <= HISTORY_CAP
    ensures |s| == n
    ensures forall i :: 0 <= i < n ==> s[i] == d[Wrap(start + i)]
  {
    seq(n, i requires 0 <= i < n => d[Wrap(start + i)])
  }

  lemma ReadRingDrop(d: seq<byte>, start: nat, n: nat, k: nat)
    requires |d| == HISTORY_CAP && start < HISTORY_CAP && k <= n <= HISTORY_CAP
    ensures ReadRing(d, Wrap(start + k), n - k) == ReadRing(d, start, n)[k..]
  {
  }

  /** A stretch of the array that does not pass its end. */
  lemma ReadRingSlice(d: seq<byte>, start: nat, n: nat, k: nat, chunk: nat)
    requires |d| == HISTORY_CAP && start < HISTORY_CAP && k + chunk <= n <= HISTORY_CAP
    requires Wrap(start + k) + chunk <= HISTORY_CAP
    ensures var pos := Wrap(start + k);
            d[pos..pos + chunk] == ReadRing(d, start, n)[k..k + chunk]
  {
  }

  function Overwrite(d: seq<byte>, at: nat, src: seq<byte>): (r: seq<byte>)
    requires at + |src| <= |d|
    ensures |r| == |d|
  {
    d[..at] + src + d[at + |src|..]
  }

  lemma OverwriteStep(d: seq<byte>, at: nat, src: seq<byte>, k: nat)
    requires at + |src| <= |d| && k < |src|
    ensures Overwrite(d, at, src[..k + 1]) == Overwrite(d, at, src[..k])[at + k := src[k]]
  {
  }

  /** The two copies of an append, the second one from the beginning of the array. */
  lemma ReadRingWritten(d: seq<byte>, start: nat, n: nat, buf: seq<byte>, first: nat)
    requires |d| == HISTORY_CAP && start < HISTORY_CAP && n + |buf| <= HISTORY_CAP && |buf| < HISTORY_CAP
    requires first == Min(|buf|, HISTORY_CAP - Wrap(start + n))
    ensures var d' := Overwrite(Overwrite(d, Wrap(start + n), buf[..first]), 0, buf[first..]);
            ReadRing(d', start, n + |buf|) == ReadRing(d, start, n) + buf
  {
    var end := Wrap(start + n);
    var d1 := Overwrite(d, end, buf[..first]);
    var d' := Overwrite(d1, 0, buf[first..]);
    var l, r := ReadRing(d', start, n + |buf|), ReadRing(d, start, n) + buf;
    forall i | 0 <= i < n + |buf|
      ensures l[i] == r[i]
    {
    }
  }

  lemma ReadRingReplaced(d: seq<byte>, before: seq<byte>, buf: seq<byte>)
    requires |d| == HISTORY_CAP <= |buf|
    ensures var src := buf[|buf| - HISTORY_CAP..];
            ReadRing(Overwrite(d, 0, src), 0, HISTORY_CAP) == LastN(before + buf, HISTORY_CAP)
  {
  }

  /** `memcpy(dst + at, src, |src|)`. */
  method Memcpy(dst: array<byte>, at: nat, src: seq<byte>)
    requires at + |src| <= dst.Length
    modifies dst
    ensures dst[..] == Overwrite(old(dst[..]), at, src)
  {
    for k := 0 to |src|
      invariant dst[..] == Overwrite(old(dst[..]), at, src[..k])
    {
      OverwriteStep(old(dst[..]), at, src, k);
      dst[at + k] := src[k];
    }
    assert src[..|src|] == src;
  }

  class Ring {
    const data: array<byte>
    var start: nat
    var len: nat
    ghost var all: seq<byte>

    ghost predicate Bounds()
      reads this
    {
      data.Length == HISTORY_CAP && start < HISTORY_CAP && len <= HISTORY_CAP
    }

    ghost function Contents(): (s: seq<byte>)
      requires Bounds()
      reads this, data
      ensures |s| == len
    {
      ReadRing(data[..], start, len)
    }

    ghost predicate Valid()
      reads this, data
    {
      Bounds() && Contents() == Window(all)
    }

    constructor ()
      ensures Valid() && fresh(data) && all == []
    {
      data := new byte[HISTORY_CAP];
      start, len, all := 0, 0, [];
    }

    method Append(buf: seq<byte>)
      requires Valid()
      modifies this, data
      ensures Valid() && all == old(all) + buf
    {
      LastNAbsorbs(all, buf, HISTORY_CAP);
      if |buf| >= HISTORY_CAP {
        Replace(buf);
      } else {
        AppendWrapped(buf);
      }
      all := all + buf;
    }

    /** An append that fills the whole ring. */
    method Replace(buf: seq<byte>)
      requires Bounds() && |buf| >= HISTORY_CAP
      modifies this, data
      ensures Bounds() && all == old(all)
      ensures Contents() == LastN(old(Contents()) + buf, HISTORY_CAP)
    {
      ReadRingReplaced(data[..], Contents(), buf);
      Memcpy(data, 0, buf[|buf| - HISTORY_CAP..]);
      start, len := 0, HISTORY_CAP;
    }

    /** Evict what no longer fits, then copy up to the end of the array and the rest to
        its beginning. */
    method AppendWrapped(buf: seq<byte>)
      requires Bounds() && |buf| < HISTORY_CAP
      modifies this, data
      ensures Bounds() && all == old(all)
      ensures Contents() == LastN(old(Contents()) + buf, HISTORY_CAP)
    {
      ghost var before := Contents();
      var overflow: nat := if len + |buf| > HISTORY_CAP then len + |buf| - HISTORY_CAP else 0;
      Evict(overflow);
      CopyIn(buf);
      assert before[overflow..] + buf == LastN(before + buf, HISTORY_CAP);
    }

    method Evict(overflow: nat)
      requires Bounds() && overflow <= len
      modifies this
      ensures Bounds() && all == old(all) && Contents() == old(Contents())[overflow..]
    {
      ReadRingDrop(data[..], start, len, overflow);
      start := Wrap(start + overflow);
      len := len - overflow;
    }

    method CopyIn(buf: seq<byte>)
      requires Bounds() && |buf| < HISTORY_CAP && len + |buf| <= HISTORY_CAP
      modifies this, data
      ensures Bounds() && all == old(all) && Contents() == old(Contents()) + buf
    {
      var end := Wrap(start + len);
      var first := HISTORY_CAP - end;
      if first > |buf| {
        first := |buf|;
      }
      ReadRingWritten(data[..], start, len, buf, first);
      Memcpy(data, end, buf[..first]);
      Memcpy(data, 0, buf[first..]);
      len := len + |buf|;
    }

    /** The packets still to send with `remaining` bytes left. */
    ghost function Todo(remaining: nat): seq<Packet>
      requires Bounds() && remaining <= len
      reads this, data
    {
      ReplayFrom(start, Contents(), len - remaining)
    }

    /** Fills the next packet of a replay, as far as the array and the packet reach. */
    method NextPayload(pos: nat, remaining: nat) returns (payload: seq<byte>)
      requires Bounds() && 0 < remaining <= len && pos == Wrap(start + (len - remaining))
      ensures 0 < |payload| <= remaining && pos + |payload| <= HISTORY_CAP
      ensures Todo(remaining) == [Packet(MSG_CONTENT, payload)] + Todo(remaining - |payload|)
    {
      hide ReplayFrom, ReadRing;
      var chunk := Min(Min(HISTORY_CAP - pos, remaining), MAX_PAYLOAD);
      payload := data[pos..pos + chunk];
      ReadRingSlice(data[..], start, len, len - remaining, chunk);
      ReplayStep(start, Contents(), len - remaining, chunk);
    }

    /** The replay loop of `server_send_history`; `budget` is how many times
        `server_send_packet` succeeds before it fails. */
    method SendContents(budget: nat) returns (sent: seq<Packet>, ok: bool)
      requires Bounds()
      ensures var frames := ReplayFrom(start, Contents(), 0);
              if budget >= |frames| then ok && sent == frames else !ok && sent == frames[..budget]
    {
      hide ReplayFrom, ReadRing;
      var remaining: nat, pos: nat := len, start;
      sent := [];
      while remaining > 0
        invariant remaining <= len && pos == Wrap(start + (len - remaining))
        invariant Todo(len) == sent + Todo(remaining)
        invariant |sent| <= budget
        decreases remaining
      {
        var payload := NextPayload(pos, remaining);
        if |sent| == budget {
          return sent, false;
        }
        Regroup(sent, Packet(MSG_CONTENT, payload), Todo(remaining - |payload|));
        sent := sent + [Packet(MSG_CONTENT, payload)];
        pos := Wrap(pos + |payload|);
        remaining := remaining - |payload|;
      }
      NothingLeft(start, Contents());
      ok := true;
    }

    /** `server_send_history`. */
    method SendHistory(sendEnd: bool, budget: nat) returns (sent: seq<Packet>, ok: bool)
      requires Valid()
      ensures var frames := ReplayFrom(start, Window(all), 0) + if sendEnd then [Packet(MSG_DUMP_END, [])] else [];
              if budget >= |frames| then ok && sent == frames else !ok && sent == frames[..budget]
    {
      sent, ok := SendContents(budget);
      if ok && sendEnd {
        if |sent| == budget {
          return sent, false;
        }
        sent := sent + [Packet(MSG_DUMP_END, [])];
      }
    }
  }

  lemma Regroup<T>(a: seq<T>, x: T, b: seq<T>)
    ensures a + ([x] + b) == (a + [x]) + b
  {
  }

  /** The payloads the C server cuts `s` into, reading its ring from `pos`: a chunk ends at
      the end of the array as well as when a packet is full. */
  function RingChunks(pos: nat, s: seq<byte>): seq<seq<byte>>
    requires pos < HISTORY_CAP && |s| <= HISTORY_CAP
    decreases |s|
  {
    if s == [] then []
    else
      var k := Min(Min(HISTORY_CAP - pos, |s|), MAX_PAYLOAD);
      [s[..k]] + RingChunks(Wrap(pos + k), s[k..])
  }

  /** The C server's replay of `w` from `done` bytes into it. */
  function ReplayFrom(start: nat, w: seq<byte>, done: nat): seq<Packet>
    requires start < HISTORY_CAP && done <= |w| <= HISTORY_CAP
  {
    ToPackets(MSG_CONTENT, RingChunks(Wrap(start + done), w[done..]))
  }

  lemma NothingLeft(start: nat, w: seq<byte>)
    requires start < HISTORY_CAP && |w| <= HISTORY_CAP
    ensures ReplayFrom(start, w, |w|) == []
  {
  }

  lemma ReplayStep(start: nat, w: seq<byte>, done: nat, k: nat)
    requires start < HISTORY_CAP && done < |w| <= HISTORY_CAP
    requires k == Min(Min(HISTORY_CAP - Wrap(start + done), |w| - done), MAX_PAYLOAD)
    ensures ReplayFrom(start, w, done)
            == [Packet(MSG_CONTENT, w[done..done + k])] + ReplayFrom(start, w, done + k)
  {
    hide RingChunks, ToPackets;
    var pos := Wrap(start + done);
    assert w[done..][k..] == w[done + k..] && w[done..][..k] == w[done..done + k];
    RingChunksStep(pos, w[done..]);
    var more := RingChunks(Wrap(start + (done + k)), w[done + k..]);
    assert RingChunks(pos, w[done..]) == [w[done..done + k]] + more;
    ToPacketsCons(MSG_CONTENT, w[done..done + k], more);
  }

  lemma RingChunksStep(pos: nat, s: seq<byte>)
    requires pos < HISTORY_CAP && 0 < |s| <= HISTORY_CAP
    ensures var k := Min(Min(HISTORY_CAP - pos, |s|), MAX_PAYLOAD);
            RingChunks(pos, s) == [s[..k]] + RingChunks(Wrap(pos + k), s[k..])
  {
  }

  lemma {:induction false} RingChunksFlatten(pos: nat, s: seq<byte>)
    requires pos < HISTORY_CAP && |s| <= HISTORY_CAP
    ensures Flatten(RingChunks(pos, s)) == s
    decreases |s|
  {
    if s != [] {
      var k := Min(Min(HISTORY_CAP - pos, |s|), MAX_PAYLOAD);
      RingChunksFlatten(Wrap(pos + k), s[k..]);
    }
  }

  lemma {:induction false} RingChunksCount(pos: nat, s: seq<byte>)
    requires pos < HISTORY_CAP && |s| <= HISTORY_CAP
    ensures |RingChunks(pos, s)| ==
            CeilDiv(Min(|s|, HISTORY_CAP - pos), MAX_PAYLOAD)
            + CeilDiv(|s| - Min(|s|, HISTORY_CAP - pos), MAX_PAYLOAD)
    decreases |s|
  {
    if s != [] {
      var a := Min(HISTORY_CAP - pos, |s|);
      var k := Min(a, MAX_PAYLOAD);
      RingChunksCount(Wrap(pos + k), s[k..]);
      hide CeilDiv;
      NextPacket(a);
      NextPacket(|s|);
      NoPackets();
    }
  }

  lemma NextPacket(n: nat)
    ensures n > 0 ==> CeilDiv(n, MAX_PAYLOAD) == 1 + CeilDiv(n - Min(n, MAX_PAYLOAD), MAX_PAYLOAD)
  {
  }

  lemma NoPackets()
    ensures CeilDiv(0, MAX_PAYLOAD) == 0
  {
  }

  /** The two servers agree: fed the same output, the ring and the deque replay the same
      bytes; the Rust server in the fewest packets, the C server in at most one more. */
  lemma HistoriesAgree(ring: Ring, deque: Deque)
    requires ring.Valid() && deque.Valid() && ring.all == deque.all
    ensures var c := RingChunks(ring.start, ring.Contents());
            var rust := Chunks(deque.bytes);
            && Flatten(c) == Flatten(rust) == Window(ring.all)
            && |rust| == CeilDiv(|deque.bytes|, MAX_PAYLOAD)
            && |rust| <= |c| <= |rust| + 1
            && (ring.start + ring.len <= HISTORY_CAP ==> c == rust)
  {
    RingChunksFlatten(ring.start, ring.Contents());
    RingChunksCount(ring.start, ring.Contents());
    ChunksFlatten(deque.bytes);
    if ring.start + ring.len <= HISTORY_CAP {
      SameChunks(ring.start, ring.Contents());
    }
  }

  lemma {:induction false} SameChunks(pos: nat, s: seq<byte>)
    requires pos < HISTORY_CAP && pos + |s| <= HISTORY_CAP
    ensures RingChunks(pos, s) == Chunks(s)
    decreases |s|
  {
    if s != [] {
      var k := Min(|s|, MAX_PAYLOAD);
      if k < |s| {
        SameChunks(pos + k, s[k..]);
      }
    }
  }
}
