/** The two decoders, against a one-shot parse of the byte stream. */
module Codec {
  import opened Protocol

  // --------------------------------------------------------------- one frame

  /** What the front of a byte stream holds: a frame and what follows it, less than a
      frame, or a header whose length is out of range. */
  datatype Received = Got(pkt: Packet, rest: seq<byte>) | UnexpectedEof | TooLarge

  /** Also one `recv_packet_blocking` on a stream that delivers `s` and then ends. */
  function Recv(s: seq<byte>): (r: Received)
    ensures r.Got? ==> Fits(r.pkt) && |r.rest| + 8 + |r.pkt.payload| == |s|
  {
    if |s| < 8 then UnexpectedEof
    else
      var len := U32Of(s[4..8]);
      if len > MAX_PAYLOAD then TooLarge
      else if |s| < 8 + len then UnexpectedEof
      else Got(Packet(U32Of(s[..4]), s[8..8 + len]), s[8 + len..])
  }

  lemma RecvAppend(s: seq<byte>, t: seq<byte>)
    ensures Recv(s).Got? ==> Recv(s + t) == Got(Recv(s).pkt, Recv(s).rest + t)
    ensures Recv(s).TooLarge? ==> Recv(s + t).TooLarge?
  {
    if |s| >= 8 {
      assert (s + t)[..4] == s[..4] && (s + t)[4..8] == s[4..8];
      var len: nat := U32Of(s[4..8]);
      if |s| >= 8 + len {
        assert (s + t)[8..8 + len] == s[8..8 + len];
        assert (s + t)[8 + len..] == s[8 + len..] + t;
      }
    }
  }

  /** The header of any frame says its type, and its length as far as 32 bits reach. */
  lemma HeaderOf(p: Packet)
    ensures U32Of(Encode(p)[..4]) == p.typ && U32Of(Encode(p)[4..8]) == |p.payload| % 0x1_0000_0000
    ensures Encode(p)[8..] == p.payload
  {
    hide U32Of, U32Bytes;
    U32RoundTrip(p.typ);
    U32RoundTrip(|p.payload| % 0x1_0000_0000);
    assert Encode(p)[..4] == U32Bytes(p.typ) && Encode(p)[4..8] == U32Bytes(|p.payload| % 0x1_0000_0000);
  }

  /** The header of a small frame, byte by byte. */
  lemma SmallFrame(p: Packet)
    requires p.typ < 0x100 && |p.payload| < 0x100
    ensures Encode(p) == [p.typ, 0, 0, 0, |p.payload|, 0, 0, 0] + p.payload
  {
    SmallInteger(p.typ);
    SmallInteger(|p.payload|);
  }

  /** The frames the clients and the server exchange: a read-only attach, a detach, a resize to 24
      by 80, the exit status 143, a request for a dump and its end, a key, and a byte of content. */
  lemma WireFormat()
    ensures Encode(Packet(MSG_ATTACH, [1, 0, 0, 0])) == [1, 0, 0, 0, 4, 0, 0, 0, 1, 0, 0, 0]
    ensures Encode(Packet(MSG_DETACH, [])) == [2, 0, 0, 0, 0, 0, 0, 0]
    ensures Encode(Packet(MSG_RESIZE, [24, 0, 80, 0])) == [3, 0, 0, 0, 4, 0, 0, 0, 24, 0, 80, 0]
    ensures Encode(Packet(MSG_EXIT, U32Bytes(143))) == [4, 0, 0, 0, 4, 0, 0, 0, 143, 0, 0, 0]
    ensures Encode(Packet(MSG_DUMP, [])) == [6, 0, 0, 0, 0, 0, 0, 0]
    ensures Encode(Packet(MSG_DUMP_END, [])) == [7, 0, 0, 0, 0, 0, 0, 0]
    ensures Encode(Packet(MSG_SEND_KEYS, [3])) == [8, 0, 0, 0, 1, 0, 0, 0, 3]
    ensures Encode(Packet(MSG_CONTENT, [97])) == [0, 0, 0, 0, 1, 0, 0, 0, 97]
  {
    hide Encode, U32Bytes;
    SmallInteger(143);
    SmallFrame(Packet(MSG_ATTACH, [1, 0, 0, 0]));
    SmallFrame(Packet(MSG_DETACH, []));
    SmallFrame(Packet(MSG_RESIZE, [24, 0, 80, 0]));
    SmallFrame(Packet(MSG_EXIT, U32Bytes(143)));
    SmallFrame(Packet(MSG_DUMP, []));
    SmallFrame(Packet(MSG_DUMP_END, []));
    SmallFrame(Packet(MSG_SEND_KEYS, [3]));
    SmallFrame(Packet(MSG_CONTENT, [97]));
  }

  lemma RecvFrame(p: Packet, tail: seq<byte>)
    requires Fits(p)
    ensures Recv(Encode(p) + tail) == Got(p, tail)
  {
    hide U32Of, U32Bytes;
    var s := Encode(p) + tail;
    U32RoundTrip(p.typ);
    U32RoundTrip(|p.payload|);
    assert s[..4] == U32Bytes(p.typ);
    assert s[4..8] == U32Bytes(|p.payload|);
    assert s[8..8 + |p.payload|] == p.payload;
    assert s[8 + |p.payload|..] == tail;
  }

  /** A frame cut short is not a frame. */
  lemma RecvPartial(p: Packet, w: seq<byte>)
    requires Fits(p) && w < Encode(p)
    ensures Recv(w).UnexpectedEof?
  {
    if |w| >= 8 {
      U32RoundTrip(|p.payload|);
      assert Encode(p)[4..8] == U32Bytes(|p.payload|);
      assert w == Encode(p)[..|w|];
      assert w[4..8] == Encode(p)[4..8];
    }
  }

  lemma RecvEncodes(s: seq<byte>)
    requires Recv(s).Got?
    ensures Encode(Recv(s).pkt) + Recv(s).rest == s
  {
    var r, len: nat := Recv(s), U32Of(s[4..8]);
    assert r.pkt == Packet(U32Of(s[..4]), s[8..8 + len]) && r.rest == s[8 + len..];
    hide U32Of, U32Bytes, Recv;
    U32BytesOf(s[..4]);
    U32BytesOf(s[4..8]);
    CutFrame(s, len);
  }

  lemma CutFrame(s: seq<byte>, n: nat)
    requires 8 + n <= |s|
    ensures s[..4] + s[4..8] + s[8..8 + n] + s[8 + n..] == s
  {
  }

  lemma U32BytesOf(b: seq<byte>)
    requires |b| == 4
    ensures U32Bytes(U32Of(b)) == b
  {
    LittleEndianOfValue(b);
  }

  // ---------------------------------------------------------- one-shot parse

  /** The complete frames at the front of a stream, and what stops the parse:
      an incomplete frame (`rest`) or a header whose length is out of range. */
  datatype Parsed = Parsed(packets: seq<Packet>, rest: seq<byte>, oversized: bool) {
    function After(p: Packet): Parsed { Parsed([p] + packets, rest, oversized) }

    /** What the parse of a longer stream is, given the parse of what follows `packets`. */
    function Then(q: Parsed): Parsed { Parsed(packets + q.packets, q.rest, q.oversized) }
  }

  function Parse(s: seq<byte>): Parsed
    decreases |s|
  {
    match Recv(s)
    case Got(pkt, rest) => Parse(rest).After(pkt)
    case UnexpectedEof => Parsed([], s, false)
    case TooLarge => Parsed([], s, true)
  }

  /** Less than a header, or a header with a length in range and too few bytes after it. */
  predicate Incomplete(s: seq<byte>) { Recv(s).UnexpectedEof? }

  lemma IncompleteBound(s: seq<byte>)
    requires Incomplete(s)
    ensures |s| < 4096
  {
  }

  lemma {:induction false} ParseShape(s: seq<byte>)
    ensures var r := Parse(s);
            && EncodeAll(r.packets) + r.rest == s
            && AllFit(r.packets)
            && Recv(r.rest) == (if r.oversized then TooLarge else UnexpectedEof)
    decreases |s|
  {
    hide Recv, Encode;
    if Recv(s).Got? {
      var p, rest := Recv(s).pkt, Recv(s).rest;
      var r := Parse(rest);
      ParseShape(rest);
      RecvEncodes(s);
      assert ([p] + r.packets)[1..] == r.packets;
      assert Encode(p) + (EncodeAll(r.packets) + r.rest) == (Encode(p) + EncodeAll(r.packets)) + r.rest;
    }
  }

  /** A stream that starts with a complete, acceptable frame. */
  lemma ParseFrame(p: Packet, tail: seq<byte>)
    requires Fits(p)
    ensures Parse(Encode(p) + tail) == Parse(tail).After(p)
  {
    RecvFrame(p, tail);
  }

  /** Round trip: framing loses nothing. */
  lemma {:induction false} ParseEncoded(ps: seq<Packet>)
    requires AllFit(ps)
    ensures Parse(EncodeAll(ps)) == Parsed(ps, [], false)
  {
    if ps != [] {
      ParseEncoded(ps[1..]);
      ParseFrame(ps[0], EncodeAll(ps[1..]));
    }
  }

  /** What a receiver that saw only `w` of an encoded stream makes of it. */
  ghost predicate DecodesTo(w: seq<byte>, r: Parsed, ps: seq<Packet>) {
    && !r.oversized
    && r.packets <= ps
    && EncodeAll(r.packets) + r.rest == w
    && (if |r.packets| == |ps| then r.rest == [] else r.rest < Encode(ps[|r.packets|]))
  }

  /** However little of an encoded stream has arrived, it decodes to a prefix of
      the packets sent and at most one frame cut short. */
  lemma {:induction false} ParsePrefix(ps: seq<Packet>, w: seq<byte>)
    requires AllFit(ps) && w <= EncodeAll(ps)
    ensures DecodesTo(w, Parse(w), ps)
  {
    if ps != [] {
      var f := Encode(ps[0]);
      if |w| < |f| {
        assert w < f;
        RecvPartial(ps[0], w);
      } else {
        var t := w[|f|..];
        assert w == f + t;
        ParsePrefix(ps[1..], t);
        ParseFrame(ps[0], t);
        DecodesToCons(ps[0], t, Parse(t), ps[1..]);
        assert [ps[0]] + ps[1..] == ps;
      }
    }
  }

  lemma DecodesToCons(p: Packet, w: seq<byte>, r: Parsed, ps: seq<Packet>)
    requires DecodesTo(w, r, ps)
    ensures DecodesTo(Encode(p) + w, r.After(p), [p] + ps)
  {
  }

  /** Bytes that arrive later only continue the parse. */
  lemma {:induction false} ParseAppend(s: seq<byte>, t: seq<byte>)
    ensures !Parse(s).oversized ==> Parse(s + t) == Parse(s).Then(Parse(Parse(s).rest + t))
    ensures Parse(s).oversized ==> Parse(s + t) == Parsed(Parse(s).packets, Parse(s).rest + t, true)
    decreases |s|
  {
    match Recv(s)
    case Got(pkt, rest) =>
      RecvAppend(s, t);
      ParseAppend(rest, t);
      if !Parse(rest).oversized {
        AfterThen(pkt, Parse(rest), Parse(Parse(rest).rest + t));
      }
    case UnexpectedEof =>
      var q := Parse(s + t);
      assert [] + q.packets == q.packets;
    case TooLarge =>
      RecvAppend(s, t);
  }

  lemma AfterThen(p: Packet, r: Parsed, q: Parsed)
    ensures r.After(p).Then(q) == r.Then(q).After(p)
  {
  }

  // -------------------------------------------------- the incremental decoder

  /** The server's receive side: its buffer, everything decoded so far, and how many
      packets had been decoded when a header was first out of range (which clears the
      buffer and lets decoding go on from whatever arrives next). */
  datatype Decoder = Decoder(buf: seq<byte>, packets: seq<Packet>, firstBad: Option<nat>)

  function Leftover(r: Parsed): seq<byte> { if r.oversized then [] else r.rest }

  /** One read, then `pop_packet` until it returns nothing. */
  function Feed(d: Decoder, fragment: seq<byte>): Decoder {
    var r := Parse(d.buf + fragment);
    var packets := d.packets + r.packets;
    Decoder(Leftover(r), packets,
            if d.firstBad.None? && r.oversized then Some(|packets|) else d.firstBad)
  }

  function FeedAll(d: Decoder, fragments: seq<seq<byte>>): Decoder
    decreases |fragments|
  {
    if fragments == [] then d else FeedAll(Feed(d, fragments[0]), fragments[1..])
  }

  lemma {:induction false} FeedAllKeeps(d: Decoder, fragments: seq<seq<byte>>)
    ensures d.packets <= FeedAll(d, fragments).packets
    ensures d.firstBad.Some? ==> FeedAll(d, fragments).firstBad == d.firstBad
    decreases |fragments|
  {
    if fragments != [] {
      FeedAllKeeps(Feed(d, fragments[0]), fragments[1..]);
    }
  }

  /** Where a decoder stands after the whole stream `all` of it has been parsed as `r`. */
  ghost predicate Reaches(d: Decoder, r: Parsed, e: Decoder) {
    if r.oversized
    then e.firstBad == Some(|d.packets + r.packets|) && d.packets + r.packets <= e.packets
    else e == Decoder(r.rest, d.packets + r.packets, None)
  }

  lemma {:induction false} FeedAllFrom(d: Decoder, fragments: seq<seq<byte>>)
    requires d.firstBad.None? && Incomplete(d.buf)
    ensures Reaches(d, Parse(d.buf + Flatten(fragments)), FeedAll(d, fragments))
    decreases |fragments|
  {
    if fragments == [] {
      assert d.buf + Flatten(fragments) == d.buf;
    } else {
      var s, more := d.buf + fragments[0], Flatten(fragments[1..]);
      var e := Feed(d, fragments[0]);
      assert d.buf + Flatten(fragments) == s + more;
      ParseAppend(s, more);
      ParseShape(s);
      if Parse(s).oversized {
        FeedAllKeeps(e, fragments[1..]);
      } else {
        FeedAllFrom(e, fragments[1..]);
        ReachesThen(d, Parse(s), e, Parse(e.buf + more), FeedAll(e, fragments[1..]));
      }
    }
  }

  lemma ReachesThen(d: Decoder, r: Parsed, e: Decoder, q: Parsed, end: Decoder)
    requires !r.oversized && Reaches(d, r, e) && Reaches(e, q, end)
    ensures Reaches(d, r.Then(q), end)
  {
  }

  /** Fragmentation independence: how a stream is cut into reads does not matter up to the
      first header out of range, which every fragmentation meets after the same packets. */
  lemma FragmentationIndependent(f: seq<seq<byte>>, g: seq<seq<byte>>)
    requires Flatten(f) == Flatten(g)
    ensures var start := Decoder([], [], None);
            var a, b, all := FeedAll(start, f), FeedAll(start, g), Parse(Flatten(f));
            && a.firstBad == b.firstBad
            && (if a.firstBad.Some?
                then a.firstBad.value <= |a.packets| && a.firstBad.value <= |b.packets|
                     && a.packets[..a.firstBad.value] == all.packets == b.packets[..a.firstBad.value]
                else a == b == Decoder(all.rest, all.packets, None))
  {
    var start := Decoder([], [], None);
    FeedAllFrom(start, f);
    FeedAllFrom(start, g);
    assert [] + Flatten(f) == Flatten(f);
    assert [] + Parse(Flatten(f)).packets == Parse(Flatten(f)).packets;
  }

  /** Past that point it does matter: the same sixteen bytes, cut in two ways. */
  lemma FragmentationMattersAfterOversized()
    ensures var start := Decoder([], [], None);
            var bad := U32Bytes(0) + U32Bytes(MAX_PAYLOAD + 1);
            var good := Encode(Packet(MSG_DETACH, []));
            && FeedAll(start, [bad, good]).packets == [Packet(MSG_DETACH, [])]
            && FeedAll(start, [bad + good]).packets == []
  {
    var start := Decoder([], [], None);
    var bad := U32Bytes(0) + U32Bytes(MAX_PAYLOAD + 1);
    var p := Packet(MSG_DETACH, []);
    U32RoundTrip(MAX_PAYLOAD + 1);
    assert bad[4..8] == U32Bytes(MAX_PAYLOAD + 1);
    assert [] + bad == bad && Parse(bad) == Parsed([], bad, true);
    assert (bad + Encode(p))[4..8] == U32Bytes(MAX_PAYLOAD + 1);
    assert [] + (bad + Encode(p)) == bad + Encode(p);
    assert [bad + Encode(p)][1..] == [] && FeedAll(Feed(start, bad + Encode(p)), []) == Feed(start, bad + Encode(p));
    var d := Feed(start, bad);
    assert [bad, Encode(p)][1..] == [Encode(p)] && [Encode(p)][1..] == [];
    var e := Feed(d, Encode(p));
    assert FeedAll(e, []) == e;
    assert FeedAll(d, [Encode(p)]) == e;
    assert FeedAll(start, [bad, Encode(p)]) == e;
    assert [] + Encode(p) == Encode(p) + [];
    ParseFrame(p, []);
  }

  /** A whole frame starts somewhere in `t` after its first header. */
  ghost predicate HidesFrame(t: seq<byte>) { exists j :: 8 <= j <= |t| && Recv(t[j..]).Got? }

  /** No frame starts anywhere in `t`. */
  ghost predicate Silent(t: seq<byte>) { forall j :: 0 <= j <= |t| ==> !Recv(t[j..]).Got? }

  /** However a silent stream is cut, nothing is ever decoded from it. */
  lemma {:induction false} SilentDecodesNothing(d: Decoder, fragments: seq<seq<byte>>)
    requires Silent(d.buf + Flatten(fragments))
    ensures FeedAll(d, fragments).packets == d.packets
    decreases |fragments|
  {
    hide Recv;
    if fragments != [] {
      var s, more := d.buf + fragments[0], Flatten(fragments[1..]);
      var t := d.buf + Flatten(fragments);
      assert t == s + more && t[0..] == t;
      RecvAppend(s, more);
      var e := Feed(d, fragments[0]);
      assert e.packets == d.packets;
      SilentTail(t, |t| - |e.buf + more|);
      assert t[|t| - |e.buf + more|..] == e.buf + more;
      SilentDecodesNothing(e, fragments[1..]);
    }
  }

  lemma SilentTail(t: seq<byte>, k: nat)
    requires Silent(t) && k <= |t|
    ensures Silent(t[k..])
  {
  }

  /** What is left of a bad stream once its first header has been taken in is silent, unless
      the stream hides a frame. */
  lemma SilentAfterHeader(t: seq<byte>, k: nat)
    requires !HidesFrame(t) && 8 <= k <= |t|
    ensures Silent(t[k..])
  {
  }

  /** If the bytes from the first header out of range on hide no frame, cutting cannot matter. */
  lemma {:induction false} NothingHidden(d: Decoder, fragments: seq<seq<byte>>)
    requires Incomplete(d.buf)
    requires var all := Parse(d.buf + Flatten(fragments)); all.oversized ==> !HidesFrame(all.rest)
    ensures FeedAll(d, fragments).packets == d.packets + Parse(d.buf + Flatten(fragments)).packets
    decreases |fragments|
  {
    hide Recv, HidesFrame;
    if fragments == [] {
      assert d.buf + Flatten(fragments) == d.buf;
    } else {
      var s, more := d.buf + fragments[0], Flatten(fragments[1..]);
      var e := Feed(d, fragments[0]);
      assert d.buf + Flatten(fragments) == s + more;
      ParseAppend(s, more);
      LeftoverIncomplete(s);
      if Parse(s).oversized {
        RestHasHeader(s);
        AfterClearing(Parse(s).rest, more, e, fragments[1..]);
      } else {
        NothingHidden(e, fragments[1..]);
        PacketsThen(d.packets, Parse(s), Parse(e.buf + more));
      }
    }
  }

  lemma PacketsThen(before: seq<Packet>, r: Parsed, q: Parsed)
    ensures before + r.Then(q).packets == (before + r.packets) + q.packets
  {
  }

  /** The buffer has been cleared of `rest`; what is still to come is silent. */
  lemma AfterClearing(rest: seq<byte>, more: seq<byte>, e: Decoder, fragments: seq<seq<byte>>)
    requires !HidesFrame(rest + more) && |rest| >= 8 && e.buf == [] && more == Flatten(fragments)
    ensures FeedAll(e, fragments).packets == e.packets
  {
    hide HidesFrame, Silent;
    SilentAfterHeader(rest + more, |rest|);
    assert (rest + more)[|rest|..] == more == [] + more;
    SilentDecodesNothing(e, fragments);
  }

  lemma RestHasHeader(s: seq<byte>)
    requires Parse(s).oversized
    ensures |Parse(s).rest| >= 8
  {
  }

  /** A hidden frame comes out when the stream is cut just before it. */
  lemma HiddenFrameAppears(s: seq<byte>, j: nat)
    requires Parse(s).oversized && 8 <= j <= |Parse(s).rest| && Recv(Parse(s).rest[j..]).Got?
    ensures var t := Parse(s).rest;
            var cut := [EncodeAll(Parse(s).packets) + t[..j], t[j..]];
            Flatten(cut) == s && FeedAll(Decoder([], [], None), cut).packets != Parse(s).packets
  {
    hide Recv, Parse, Feed, FeedAll, EncodeAll, Flatten;
    var ps, t := Parse(s).packets, Parse(s).rest;
    var head, tail := EncodeAll(ps) + t[..j], t[j..];
    var start := Decoder([], [], None);
    ParseShape(s);
    assert head + tail == s by { assert t[..j] + tail == t; }
    FlattenTwo(head, tail);
    FeedTwo(start, head, tail);
    var d := Feed(start, head);
    assert d.packets == ps && d.buf == [] by { BadHead(ps, t, j); }
    assert |Feed(d, tail).packets| > |ps| by { FeedDecodes(d, tail); }
  }

  /** The stream up to some point after its bad header is decoded to its packets and cleared. */
  lemma BadHead(ps: seq<Packet>, t: seq<byte>, j: nat)
    requires AllFit(ps) && Recv(t).TooLarge? && 8 <= j <= |t|
    ensures var d := Feed(Decoder([], [], None), EncodeAll(ps) + t[..j]);
            d.packets == ps && d.buf == []
  {
    hide Recv, Encode;
    var head := EncodeAll(ps) + t[..j];
    TooLargeSooner(t, j);
    ParseEncoded(ps);
    ParseAppend(EncodeAll(ps), t[..j]);
    assert [] + t[..j] == t[..j] && [] + head == head;
    assert ps + [] == ps && [] + ps == ps;
  }

  lemma FeedDecodes(d: Decoder, tail: seq<byte>)
    requires d.buf == [] && Recv(tail).Got?
    ensures |Feed(d, tail).packets| > |d.packets|
  {
    assert [] + tail == tail;
  }

  /** A header out of range shows in its eight bytes. */
  lemma TooLargeSooner(t: seq<byte>, j: nat)
    requires Recv(t).TooLarge? && 8 <= j <= |t|
    ensures Recv(t[..j]).TooLarge?
  {
    assert t[..j][4..8] == t[4..8];
  }

  lemma FeedTwo(d: Decoder, a: seq<byte>, b: seq<byte>)
    ensures FeedAll(d, [a, b]) == Feed(Feed(d, a), b)
  {
    assert [a, b][1..] == [b] && [b][1..] == [];
    assert FeedAll(Feed(d, a), [b]) == FeedAll(Feed(Feed(d, a), b), []);
  }

  lemma FlattenTwo(a: seq<byte>, b: seq<byte>)
    ensures Flatten([a, b]) == a + b
  {
    assert [a, b][1..] == [b];
    FlattenOne(b);
  }

  /** Exactly when cutting a stream into reads cannot matter: it has no header out of range, or
      no frame starts in what follows the first such header. */
  lemma FragmentationMattersIff(s: seq<byte>)
    ensures (forall f :: Flatten(f) == s ==> FeedAll(Decoder([], [], None), f).packets == Parse(s).packets)
            <==> !Parse(s).oversized
                 || forall j :: 8 <= j <= |Parse(s).rest| ==> !Recv(Parse(s).rest[j..]).Got?
  {
    hide Recv, Parse, FeedAll, Flatten;
    var start, t := Decoder([], [], None), Parse(s).rest;
    if Parse(s).oversized && exists j :: 8 <= j <= |t| && Recv(t[j..]).Got? {
      var j :| 8 <= j <= |t| && Recv(t[j..]).Got?;
      HiddenFrameAppears(s, j);
    } else {
      forall f | Flatten(f) == s
        ensures FeedAll(start, f).packets == Parse(s).packets
      {
        NothingIncomplete();
        assert [] + s == s && [] + Parse(s).packets == Parse(s).packets;
        NothingHidden(start, f);
      }
    }
  }

  lemma NothingIncomplete()
    ensures Incomplete([])
  {
  }

  lemma LeftoverIncomplete(s: seq<byte>)
    ensures Incomplete(Leftover(Parse(s)))
  {
    ParseShape(s);
  }

  /** `pop_packet`: take one frame off the front of a buffer, which is returned as it then is. */
  method PopPacket(buf: seq<byte>) returns (pkt: Option<Packet>, rest: seq<byte>)
    ensures var r := Parse(buf);
            if r.packets == [] then pkt == None && rest == Leftover(r)
            else pkt == Some(r.packets[0])
                 && Parse(rest) == Parsed(r.packets[1..], r.rest, r.oversized)
                 && |rest| + 8 <= |buf|
  {
    if |buf| < 8 {
      return None, buf;
    }
    var typ := U32Of(buf[..4]);
    var len := U32Of(buf[4..8]);
    if len > MAX_PAYLOAD {
      return None, [];
    }
    if |buf| < 8 + len {
      return None, buf;
    }
    return Some(Packet(typ, buf[8..8 + len])), buf[8 + len..];
  }

  /** One read followed by the packet loop, every turn of which removes at least a header. */
  method Receive(buf: seq<byte>, fragment: seq<byte>) returns (packets: seq<Packet>, rest: seq<byte>)
    ensures var r := Parse(buf + fragment);
            packets == r.packets && rest == Leftover(r)
    ensures Incomplete(rest)
  {
    hide Recv;
    rest := buf + fragment;
    ghost var all := Parse(rest);
    LeftoverIncomplete(rest);
    packets := [];
    while true
      invariant packets + Parse(rest).packets == all.packets
      invariant Leftover(Parse(rest)) == Leftover(all)
      decreases |rest|
    {
      var p;
      p, rest := PopPacket(rest);
      if p.None? {
        return;
      }
      packets := packets + [p.value];
    }
  }

  // ----------------------------------------------------- the blocking decoder

  /** A blocking socket: the pieces its peer's bytes arrive in, then end of file. A read
      takes at most what the caller asked for from the first piece. */
  class BlockingStream {
    var pieces: seq<seq<byte>>

    constructor (pieces: seq<seq<byte>>)
      ensures this.pieces == pieces
    {
      this.pieces := pieces;
    }

    method Read(max: nat) returns (got: seq<byte>)
      requires max > 0
      modifies this
      ensures |got| <= max && got + Flatten(pieces) == old(Flatten(pieces))
      ensures got == [] ==> Flatten(pieces) == []
    {
      while pieces != [] && pieces[0] == []
        invariant Flatten(pieces) == old(Flatten(pieces))
        decreases |pieces|
      {
        pieces := pieces[1..];
      }
      if pieces == [] {
        return [];
      }
      var k := Min(max, |pieces[0]|);
      got := pieces[0][..k];
      assert pieces[0] == got + pieces[0][k..];
      pieces := [pieces[0][k..]] + pieces[1..];
    }

    /** `read_exact`, and C's `read_all` on a blocking socket. */
    method ReadExact(n: nat) returns (data: Option<seq<byte>>)
      modifies this
      ensures var s := old(Flatten(pieces));
              if |s| < n then data == None
              else data == Some(s[..n]) && Flatten(pieces) == s[n..]
    {
      ghost var s := Flatten(pieces);
      var acc := [];
      while |acc| < n
        invariant |acc| <= n && acc + Flatten(pieces) == s
      {
        var got := Read(n - |acc|);
        if got == [] {
          return None;
        }
        assert (acc + got) + Flatten(pieces) == s;
        acc := acc + got;
      }
      return Some(acc);
    }

    /** `recv_packet_blocking`, and C's `recv_packet`. */
    method RecvPacket() returns (r: Received)
      modifies this
      ensures r == Recv(old(Flatten(pieces)))
      ensures r.Got? ==> Flatten(pieces) == r.rest
    {
      ghost var s := Flatten(pieces);
      var hdr := ReadExact(8);
      if hdr.None? {
        return UnexpectedEof;
      }
      assert s[..8][..4] == s[..4] && s[..8][4..8] == s[4..8];
      var typ, len := U32Of(hdr.value[..4]), U32Of(hdr.value[4..8]);
      if len > MAX_PAYLOAD {
        return TooLarge;
      }
      var payload := ReadExact(len);
      if payload.None? {
        return UnexpectedEof;
      }
      r := Got(Packet(typ, payload.value), Flatten(pieces));
    }

    /** Receiving until the first failure. The two decoders agree: the blocking one yields the
        packets of the incremental one, and its error tells a stream that ends, perhaps within
        a frame, from a header out of range. */
    method RecvUntilError() returns (packets: seq<Packet>, error: Received)
      modifies this
      ensures var all := Parse(old(Flatten(pieces)));
              packets == all.packets && error == (if all.oversized then TooLarge else UnexpectedEof)
    {
      hide Recv;
      ghost var all := Parse(Flatten(pieces));
      packets := [];
      while true
        invariant packets + Parse(Flatten(pieces)).packets == all.packets
        invariant Parse(Flatten(pieces)).oversized == all.oversized
        decreases |Flatten(pieces)|
      {
        error := RecvPacket();
        if !error.Got? {
          return;
        }
        packets := packets + [error.pkt];
      }
    }
  }
}
