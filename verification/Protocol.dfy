/** The wire protocol: constants, packets, and the byte layout of a frame. */
module Protocol {

  type byte = x: int | 0 <= x < 0x100
  type u32 = x: int | 0 <= x < 0x1_0000_0000
  type i32 = x: int | -0x8000_0000 <= x < 0x8000_0000

  const MSG_CONTENT: u32 := 0
  const MSG_ATTACH: u32 := 1
  const MSG_DETACH: u32 := 2
  const MSG_RESIZE: u32 := 3
  const MSG_EXIT: u32 := 4
  const MSG_PID: u32 := 5
  const MSG_DUMP: u32 := 6
  const MSG_DUMP_END: u32 := 7
  const MSG_SEND_KEYS: u32 := 8

  const HISTORY_CAP: nat := 1024 * 1024
  const MAX_PAYLOAD: nat := 4096 - 8
  const SEND_QUEUE_CAP: nat := 16 * 1024 * 1024
  /** Five seconds, in nanoseconds of the monotonic clock. */
  const EXIT_DRAIN_DEADLINE: nat := 5_000_000_000

  datatype Option<+T> = None | Some(value: T)

  /** What the kernel answers to one `write`. */
  datatype WriteResult = Accept(n: nat) | WouldBlock | Interrupted | Failed

  datatype Packet = Packet(typ: u32, payload: seq<byte>)

  function Min(a: nat, b: nat): nat { if a <= b then a else b }

  // ---------------------------------------------------------------- integers

  /** 256 to the power n. */
  function Radix(n: nat): nat { if n == 0 then 1 else 0x100 * Radix(n - 1) }

  /** The n low bytes of x, least significant first (the source uses the native order). */
  function LittleEndian(x: nat, n: nat): (b: seq<byte>)
    ensures |b| == n
  {
    if n == 0 then [] else [x % 0x100] + LittleEndian(x / 0x100, n - 1)
  }

  function Value(b: seq<byte>): (x: nat)
    ensures x < Radix(|b|)
  {
    if b == [] then 0 else Value(b[1..]) * 0x100 + b[0] as int
  }

  lemma {:induction false} ValueOfLittleEndian(x: nat, n: nat)
    requires x < Radix(n)
    ensures Value(LittleEndian(x, n)) == x
  {
    if n > 0 {
      ValueOfLittleEndian(x / 0x100, n - 1);
    }
  }

  lemma {:induction false} LittleEndianOfValue(b: seq<byte>)
    ensures LittleEndian(Value(b), |b|) == b
  {
    if b != [] {
      LittleEndianOfValue(b[1..]);
      var high: nat, low: nat := Value(b[1..]), b[0];
      assert Value(b) % 0x100 == low && Value(b) / 0x100 == high;
    }
  }

  lemma FourBytes()
    ensures Radix(4) == 0x1_0000_0000
  {
  }

  function U32Bytes(x: u32): (b: seq<byte>)
    ensures |b| == 4
  {
    LittleEndian(x, 4)
  }

  function U32Of(b: seq<byte>): u32
    requires |b| == 4
  {
    FourBytes();
    Value(b)
  }

  lemma U32RoundTrip(x: u32)
    ensures U32Of(U32Bytes(x)) == x
  {
    FourBytes();
    ValueOfLittleEndian(x, 4);
  }

  lemma SmallInteger(x: byte)
    ensures U32Bytes(x) == [x, 0, 0, 0]
  {
    assert LittleEndian(x, 4) == [x] + LittleEndian(0, 3);
    ZeroBytes(3);
  }

  lemma {:induction false} ZeroBytes(n: nat)
    ensures LittleEndian(0, n) == seq(n, _ => 0)
  {
    if n > 0 {
      ZeroBytes(n - 1);
    }
  }

  /** `status as u32`: two's complement. */
  function AsU32(code: i32): u32 {
    if code < 0 then code + 0x1_0000_0000 else code
  }

  /** `u32 as i32`, as the attached client reads the status back. */
  function AsI32(x: u32): i32 {
    if x < 0x8000_0000 then x else x - 0x1_0000_0000
  }

  function ReadU32(b: seq<byte>): Option<u32> {
    if |b| >= 4 then Some(U32Of(b[..4])) else None
  }

  // ------------------------------------------------------------------ frames

  /** `payload.len() as u32` truncates, so the length field is taken modulo 2^32. */
  function Encode(p: Packet): (b: seq<byte>)
    ensures |b| == 8 + |p.payload|
  {
    U32Bytes(p.typ) + U32Bytes(|p.payload| % 0x1_0000_0000) + p.payload
  }

  function EncodeAll(ps: seq<Packet>): seq<byte> {
    if ps == [] then [] else Encode(ps[0]) + EncodeAll(ps[1..])
  }

  lemma {:induction false} EncodeAllAppend(a: seq<Packet>, b: seq<Packet>)
    ensures EncodeAll(a + b) == EncodeAll(a) + EncodeAll(b)
  {
    if a == [] {
      assert a + b == b;
    } else {
      assert (a + b)[1..] == a[1..] + b;
      EncodeAllAppend(a[1..], b);
    }
  }

  /** A frame both decoders accept. */
  predicate Fits(p: Packet) { |p.payload| <= MAX_PAYLOAD }

  predicate AllFit(ps: seq<Packet>) { forall p :: p in ps ==> Fits(p) }

  // ------------------------------------------------------------ byte strings

  function Flatten(parts: seq<seq<byte>>): seq<byte> {
    if parts == [] then [] else parts[0] + Flatten(parts[1..])
  }

  lemma {:induction false} FlattenAppend(a: seq<seq<byte>>, b: seq<seq<byte>>)
    ensures Flatten(a + b) == Flatten(a) + Flatten(b)
  {
    if a == [] {
      assert a + b == b;
    } else {
      assert (a + b)[1..] == a[1..] + b;
      FlattenAppend(a[1..], b);
    }
  }

  lemma FlattenOne(b: seq<byte>)
    ensures Flatten([b]) == b
  {
  }

  /** The last n bytes, or everything when there are fewer. */
  function LastN(s: seq<byte>, n: nat): (r: seq<byte>)
    ensures |r| == Min(|s|, n)
  {
    if |s| <= n then s else s[|s| - n..]
  }

  /** What a history of all the output `p` keeps. */
  function Window(p: seq<byte>): seq<byte> { LastN(p, HISTORY_CAP) }

  lemma LastNAbsorbs(s: seq<byte>, d: seq<byte>, n: nat)
    ensures LastN(LastN(s, n) + d, n) == LastN(s + d, n)
  {
  }

  /** The payloads of the given type, in order. */
  function Payloads(ps: seq<Packet>, typ: u32): seq<seq<byte>> {
    if ps == [] then []
    else (if ps[0].typ == typ then [ps[0].payload] else []) + Payloads(ps[1..], typ)
  }

  lemma {:induction false} PayloadsAppend(a: seq<Packet>, b: seq<Packet>, typ: u32)
    ensures Payloads(a + b, typ) == Payloads(a, typ) + Payloads(b, typ)
  {
    if a == [] {
      assert a + b == b;
    } else {
      assert (a + b)[1..] == a[1..] + b;
      PayloadsAppend(a[1..], b, typ);
    }
  }

  /** The terminal output a list of frames carries. */
  function Contents(ps: seq<Packet>): seq<byte> {
    Flatten(Payloads(ps, MSG_CONTENT))
  }

  lemma ContentsAppend(a: seq<Packet>, b: seq<Packet>)
    ensures Contents(a + b) == Contents(a) + Contents(b)
  {
    PayloadsAppend(a, b, MSG_CONTENT);
    FlattenAppend(Payloads(a, MSG_CONTENT), Payloads(b, MSG_CONTENT));
  }

  lemma ContentsOne(p: Packet)
    ensures Contents([p]) == if p.typ == MSG_CONTENT then p.payload else []
  {
    assert [p][1..] == [] && Payloads([], MSG_CONTENT) == [];
    FlattenOne(p.payload);
  }

  // ---------------------------------------------------------------- chunking

  /** `bytes.chunks(MAX_PAYLOAD)`: full chunks, then what is left. */
  function Chunks(s: seq<byte>): seq<seq<byte>> {
    if s == [] then []
    else var k := Min(|s|, MAX_PAYLOAD); [s[..k]] + Chunks(s[k..])
  }

  function CeilDiv(n: nat, d: nat): nat
    requires d > 0
  {
    (n + d - 1) / d
  }

  lemma {:induction false} ChunksFlatten(s: seq<byte>)
    ensures Flatten(Chunks(s)) == s
    ensures |Chunks(s)| == CeilDiv(|s|, MAX_PAYLOAD)
  {
    if s != [] {
      ChunksFlatten(s[Min(|s|, MAX_PAYLOAD)..]);
    }
  }

  /** One packet of the given type for every chunk. */
  function ToPackets(typ: u32, parts: seq<seq<byte>>): (ps: seq<Packet>)
    ensures |ps| == |parts|
  {
    if parts == [] then [] else [Packet(typ, parts[0])] + ToPackets(typ, parts[1..])
  }

  lemma ToPacketsCons(typ: u32, part: seq<byte>, more: seq<seq<byte>>)
    ensures ToPackets(typ, [part] + more) == [Packet(typ, part)] + ToPackets(typ, more)
  {
  }

  lemma {:induction false} ToPacketsPayloads(typ: u32, parts: seq<seq<byte>>)
    ensures Payloads(ToPackets(typ, parts), typ) == parts
  {
    if parts != [] {
      ToPacketsPayloads(typ, parts[1..]);
    }
  }

  lemma {:induction false} EncodedLength(typ: u32, parts: seq<seq<byte>>)
    ensures |EncodeAll(ToPackets(typ, parts))| == |Flatten(parts)| + 8 * |parts|
  {
    if parts != [] {
      EncodedLength(typ, parts[1..]);
    }
  }
}
