/** Sending keys: from the tokens on the command line to the bytes in the packets, in Rust
    (concatenate, then cut) and in C (token by token). */
module Keys {
  import opened Protocol

  /** A command-line argument, one character for each of its bytes. */
  type Token = string

  function Bytes(t: Token): (b: seq<byte>)
    ensures |b| == |t|
  {
    seq(|t|, i requires 0 <= i < |t| => t[i] as int % 0x100)
  }

  /** `b & 0x1f` */
  function Control(b: byte): byte { b % 0x20 }

  const ESC: byte := 0x1b

  /** `ESC [ x` */
  function Csi(c: char): seq<byte> requires c as int < 0x100 { [ESC, '[' as int, c as int] }

  /** `ESC [ x ~` */
  function Tilde(c: char): seq<byte> requires c as int < 0x100 { [ESC, '[' as int, c as int, '~' as int] }

  /** The named keys of the Rust `match`. */
  function NamedKey(t: Token): Option<seq<byte>> {
    if t == "Enter" || t == "Return" || t == "C-m" then Some([13])
    else if t == "Tab" || t == "C-i" then Some([9])
    else if t == "Esc" || t == "Escape" then Some([ESC])
    else if t == "Space" then Some([32])
    else if t == "Backspace" || t == "BSpace" then Some([127])
    else if t == "Delete" then Some(Tilde('3'))
    else if t == "Insert" then Some(Tilde('2'))
    else if t == "Up" then Some(Csi('A'))
    else if t == "Down" then Some(Csi('B'))
    else if t == "Right" then Some(Csi('C'))
    else if t == "Left" then Some(Csi('D'))
    else if t == "Home" then Some(Csi('H'))
    else if t == "End" then Some(Csi('F'))
    else if t == "PageUp" then Some(Tilde('5'))
    else if t == "PageDown" then Some(Tilde('6'))
    else None
  }

  /** `key_token_bytes` */
  function KeyTokenBytes(t: Token): Option<seq<byte>> {
    if NamedKey(t).Some? then NamedKey(t)
    else if "C-" <= t && |t| == 3 then Some([Control(Bytes(t)[2])])
    else if "^" <= t && |t| == 2 then Some([Control(Bytes(t)[1])])
    else None
  }

  /** Every control key, the two that also have an entry of their own included. */
  lemma ControlKeys(c: char)
    requires c as int < 0x100
    ensures KeyTokenBytes(['C', '-', c]) == Some([c as int % 0x20])
    ensures KeyTokenBytes(['^', c]) == Some([c as int % 0x20])
    ensures KeyTokenBytes("C-c") == KeyTokenBytes("^C") == Some([3])
  {
    ControlKey(c);
    ControlKey('c');
    ControlKey('C');
    assert "C-c" == ['C', '-', 'c'] && "^C" == ['^', 'C'];
  }

  lemma ControlKey(c: char)
    requires c as int < 0x100
    ensures KeyTokenBytes(['C', '-', c]) == Some([c as int % 0x20])
    ensures KeyTokenBytes(['^', c]) == Some([c as int % 0x20])
  {
    var t, u := ['C', '-', c], ['^', c];
    assert "C-" <= t && t[0] != 'T' && t[0] != 'E' && t[1] != 'n' && |t| == 3;
    assert "C-m"[2] == 'm' && "C-i"[2] == 'i' && "Tab"[0] == 'T' && "Esc"[0] == 'E' && "End"[0] == 'E';
    assert t != "Tab" && t != "Esc" && t != "End";
    assert t == "C-m" ==> t[2] == 'm';
    assert t == "C-i" ==> t[2] == 'i';
    assert u[0] == '^' && "Up"[0] == 'U' && u != "Up" && "^" <= u;
  }

  /** The bytes of every named key, written out. */
  lemma PlainNamedKeys()
    ensures NamedKey("Enter") == NamedKey("Return") == NamedKey("C-m") == Some([0x0D])
    ensures NamedKey("Tab") == NamedKey("C-i") == Some([0x09])
    ensures NamedKey("Esc") == NamedKey("Escape") == Some([0x1B])
    ensures NamedKey("Space") == Some([0x20])
    ensures NamedKey("Backspace") == NamedKey("BSpace") == Some([0x7F])
  {
  }

  lemma ArrowKeys()
    ensures NamedKey("Up") == Some([0x1B, 0x5B, 0x41])
    ensures NamedKey("Down") == Some([0x1B, 0x5B, 0x42])
    ensures NamedKey("Right") == Some([0x1B, 0x5B, 0x43])
    ensures NamedKey("Left") == Some([0x1B, 0x5B, 0x44])
  {
  }

  lemma EditingKeys()
    ensures NamedKey("Insert") == Some([0x1B, 0x5B, 0x32, 0x7E])
    ensures NamedKey("Delete") == Some([0x1B, 0x5B, 0x33, 0x7E])
    ensures NamedKey("PageUp") == Some([0x1B, 0x5B, 0x35, 0x7E])
    ensures NamedKey("PageDown") == Some([0x1B, 0x5B, 0x36, 0x7E])
  {
  }

  lemma LineKeys()
    ensures NamedKey("Home") == Some([0x1B, 0x5B, 0x48])
    ensures NamedKey("End") == Some([0x1B, 0x5B, 0x46])
  {
  }

  function Encoded(t: Token): seq<byte> {
    if KeyTokenBytes(t).Some? then KeyTokenBytes(t).value else Bytes(t)
  }

  function EncodedAll(tokens: seq<Token>): seq<byte> {
    if tokens == [] then [] else Encoded(tokens[0]) + EncodedAll(tokens[1..])
  }

  const SPACE: byte := 32

  /** The arguments joined by single spaces. */
  function Joined(tokens: seq<Token>): seq<byte> {
    if tokens == [] then []
    else if |tokens| == 1 then Bytes(tokens[0])
    else Bytes(tokens[0]) + [SPACE] + Joined(tokens[1..])
  }

  /** What a list of tokens means. */
  function KeyBytes(tokens: seq<Token>, literal: bool): seq<byte> {
    if literal then Joined(tokens) else EncodedAll(tokens)
  }

  lemma {:induction false} EncodedLast(tokens: seq<Token>, t: Token)
    ensures EncodedAll(tokens + [t]) == EncodedAll(tokens) + Encoded(t)
  {
    hide Encoded;
    if tokens == [] {
      assert [] + [t] == [t] && [t][1..] == [];
    } else {
      assert (tokens + [t])[1..] == tokens[1..] + [t];
      EncodedLast(tokens[1..], t);
    }
  }

  lemma {:induction false} JoinedLast(tokens: seq<Token>, t: Token)
    ensures Joined(tokens + [t]) == if tokens == [] then Bytes(t) else Joined(tokens) + [SPACE] + Bytes(t)
  {
    if tokens == [] {
      assert [] + [t] == [t];
    } else {
      assert (tokens + [t])[1..] == tokens[1..] + [t];
      JoinedLast(tokens[1..], t);
      if |tokens| > 1 {
        var head, rest, end := Bytes(tokens[0]) + [SPACE], Joined(tokens[1..]), Bytes(t);
        assert head + (rest + [SPACE] + end) == (head + rest) + [SPACE] + end;
      }
    }
  }

  /** What starts with a small letter is no key's name and types itself. */
  lemma PlainToken(t: Token)
    requires t != [] && 'a' <= t[0] <= 'z'
    ensures Encoded(t) == Bytes(t) && forall i :: 0 <= i < |t| && t[i] as int < 0x100 ==> Encoded(t)[i] == t[i] as int
  {
    assert t[0] !in "ERCTISBDULHPO^";
    NotNamed(t);
  }

  /** So does what looks like a control key but is too long or too short. */
  lemma NoControlKey(t: Token)
    requires (t != [] && t[0] == '^' && |t| != 2) || ("C-" <= t && |t| != 3)
    ensures Encoded(t) == Bytes(t) && forall i :: 0 <= i < |t| && t[i] as int < 0x100 ==> Encoded(t)[i] == t[i] as int
  {
    if t[0] == '^' {
      NotNamed(t);
    } else {
      assert t[0] == 'C' && t != "C-m" && t != "C-i";
    }
  }

  lemma NotNamed(t: Token)
    requires t != [] && t[0] !in "ERCTISBDULHPO"
    ensures NamedKey(t).None?
  {
  }

  /** Two command lines: a named key after plain text, and such text taken literally. */
  lemma TwoCommandLines()
    ensures KeyBytes(["ls", "Enter"], false) == [108, 115, 13]
    ensures KeyBytes(["ls", "Tab"], true) == [108, 115, 32, 84, 97, 98]
  {
    hide NamedKey;
    KeysThenEnter();
    assert Bytes("ls") == [108, 115] && Bytes("Tab") == [84, 97, 98];
    assert ["ls", "Tab"][1..] == ["Tab"];
    assert Joined(["ls", "Tab"]) == [108, 115] + [32] + [84, 97, 98];
  }

  lemma KeysThenEnter()
    ensures EncodedAll(["ls", "Enter"]) == [108, 115, 13]
  {
    hide NamedKey, KeyTokenBytes;
    PlainToken("ls");
    EnterKey();
    assert Bytes("ls") == [108, 115];
    assert ["ls", "Enter"][1..] == ["Enter"] && ["Enter"][1..] == [];
    assert EncodedAll(["Enter"]) == [13] + EncodedAll([]);
  }

  lemma EnterKey()
    ensures Encoded("Enter") == [13]
  {
    hide NamedKey;
    PlainNamedKeys();
  }

  /** What one more token adds. */
  function Added(tokens: seq<Token>, t: Token, literal: bool): seq<byte> {
    if !literal then Encoded(t) else if tokens == [] then Bytes(t) else [SPACE] + Bytes(t)
  }

  lemma KeyBytesLast(tokens: seq<Token>, t: Token, literal: bool)
    ensures KeyBytes(tokens + [t], literal) == KeyBytes(tokens, literal) + Added(tokens, t, literal)
    ensures KeyBytes([], literal) == []
  {
    if literal {
      JoinedLast(tokens, t);
      assert Joined(tokens) + [SPACE] + Bytes(t) == Joined(tokens) + ([SPACE] + Bytes(t));
    } else {
      EncodedLast(tokens, t);
    }
  }

  /** The packets the Rust client makes of its tokens. */
  function KeyPackets(tokens: seq<Token>, literal: bool): seq<Packet> {
    ToPackets(MSG_SEND_KEYS, Chunks(KeyBytes(tokens, literal)))
  }

  /** `send_keys_session` in Rust. */
  method SendKeys(tokens: seq<Token>, literal: bool) returns (sent: seq<Packet>)
    ensures sent == KeyPackets(tokens, literal)
  {
    hide KeyTokenBytes, Bytes, ToPackets, Chunks, KeyBytes;
    var bytes: seq<byte> := [];
    KeyBytesLast([], "", literal);
    for idx := 0 to |tokens|
      invariant bytes == KeyBytes(tokens[..idx], literal)
    {
      var key := tokens[idx];
      assert tokens[..idx + 1] == tokens[..idx] + [key];
      KeyBytesLast(tokens[..idx], key, literal);
      if literal {
        if idx > 0 {
          bytes := bytes + [SPACE];
        }
        bytes := bytes + Bytes(key);
      } else if KeyTokenBytes(key).Some? {
        bytes := bytes + KeyTokenBytes(key).value;
      } else {
        bytes := bytes + Bytes(key);
      }
    }
    assert tokens[..|tokens|] == tokens;
    sent := SendBytes(bytes);
  }

  /** The chunk loop of the Rust client, and `send_bytes` in C. */
  method SendBytes(bytes: seq<byte>) returns (sent: seq<Packet>)
    ensures sent == ToPackets(MSG_SEND_KEYS, Chunks(bytes))
  {
    sent := [];
    var rest := bytes;
    while rest != []
      invariant sent + ToPackets(MSG_SEND_KEYS, Chunks(rest)) == ToPackets(MSG_SEND_KEYS, Chunks(bytes))
      decreases |rest|
    {
      var k := Min(|rest|, MAX_PAYLOAD);
      ToPacketsCons(MSG_SEND_KEYS, rest[..k], Chunks(rest[k..]));
      sent := sent + [Packet(MSG_SEND_KEYS, rest[..k])];
      rest := rest[k..];
    }
  }

  // --------------------------------------------------------------------------- C

  const NUM_KEYS: nat := 20

  /** The table of `key_token_bytes` in C. */
  function KeyName(i: nat): Token {
    match i
    case 0 => "Enter" case 1 => "Return" case 2 => "C-m" case 3 => "Tab" case 4 => "C-i"
    case 5 => "Esc" case 6 => "Escape" case 7 => "Space" case 8 => "Backspace" case 9 => "BSpace"
    case 10 => "Delete" case 11 => "Insert" case 12 => "Up" case 13 => "Down" case 14 => "Right"
    case 15 => "Left" case 16 => "Home" case 17 => "End" case 18 => "PageUp" case _ => "PageDown"
  }

  function KeyValue(i: nat): seq<byte> {
    match i
    case 0 => [13] case 1 => [13] case 2 => [13] case 3 => [9] case 4 => [9]
    case 5 => [ESC] case 6 => [ESC] case 7 => [32] case 8 => [127] case 9 => [127]
    case 10 => Tilde('3') case 11 => Tilde('2') case 12 => Csi('A') case 13 => Csi('B') case 14 => Csi('C')
    case 15 => Csi('D') case 16 => Csi('H') case 17 => Csi('F') case 18 => Tilde('5') case _ => Tilde('6')
  }

  /** The first entry of the table with this name, from entry i on. */
  function Lookup(t: Token, i: nat): Option<seq<byte>>
    requires i <= NUM_KEYS
    decreases NUM_KEYS - i
  {
    if i == NUM_KEYS then None else if t == KeyName(i) then Some(KeyValue(i)) else Lookup(t, i + 1)
  }

  lemma FourEntries(t: Token, i: nat)
    requires i + 4 <= NUM_KEYS
    ensures Lookup(t, i) ==
            if t == KeyName(i) then Some(KeyValue(i)) else if t == KeyName(i + 1) then Some(KeyValue(i + 1))
            else if t == KeyName(i + 2) then Some(KeyValue(i + 2))
            else if t == KeyName(i + 3) then Some(KeyValue(i + 3)) else Lookup(t, i + 4)
    ensures Lookup(t, NUM_KEYS) == None
  {
    hide KeyName, KeyValue;
    assert Lookup(t, i + 2) == if t == KeyName(i + 2) then Some(KeyValue(i + 2)) else Lookup(t, i + 3);
  }

  /** The names in the first eight entries. */
  predicate Early(t: Token) {
    t == "Enter" || t == "Return" || t == "C-m" || t == "Tab" || t == "C-i" || t == "Esc" || t == "Escape" || t == "Space"
  }

  lemma EarlyEntries(t: Token)
    ensures Lookup(t, 0) == if Early(t) then NamedKey(t) else Lookup(t, 8)
  {
    hide Csi, Tilde, Lookup;
    FourEntries(t, 0);
    FourEntries(t, 4);
  }

  lemma LateEntries(t: Token)
    requires !Early(t)
    ensures Lookup(t, 8) == NamedKey(t)
  {
    hide Csi, Tilde, Lookup;
    FourEntries(t, 8);
    FourEntries(t, 12);
    FourEntries(t, 16);
  }

  /** The table and the `match` name the same keys. */
  lemma LookupIsMatch(t: Token)
    ensures Lookup(t, 0) == NamedKey(t)
  {
    hide Lookup, NamedKey, Early;
    EarlyEntries(t);
    if !Early(t) {
      LateEntries(t);
    }
  }

  /** A character of a zero-terminated string. */
  function At(t: Token, i: nat): byte { if i < |t| then Bytes(t)[i] else 0 }

  /** A C string: bytes, none of them NUL. */
  predicate Terminated(t: Token) { forall i :: 0 <= i < |t| ==> 0 < t[i] as int < 0x100 }

  /** `key_token_bytes` in C, with `ctrl_char` in place. */
  method CKeyTokenBytes(t: Token) returns (r: Option<seq<byte>>)
    requires Terminated(t)
    ensures r == KeyTokenBytes(t)
  {
    hide NamedKey, KeyName, KeyValue;
    LookupIsMatch(t);
    var i := 0;
    while i < NUM_KEYS
      invariant 0 <= i <= NUM_KEYS && Lookup(t, i) == NamedKey(t)
    {
      if t == KeyName(i) {
        return Some(KeyValue(i));
      }
      i := i + 1;
    }
    assert forall k :: 0 <= k < |t| ==> Bytes(t)[k] == t[k] as int;
    if At(t, 0) == 'C' as int && At(t, 1) == '-' as int && At(t, 2) != 0 && At(t, 3) == 0 {
      return Some([Control(At(t, 2))]);
    }
    if At(t, 0) == '^' as int && At(t, 1) != 0 && At(t, 2) == 0 {
      return Some([Control(At(t, 1))]);
    }
    return None;
  }

  /** Packets of keys that fit. */
  predicate AllKeyPackets(ps: seq<Packet>) {
    forall p :: p in ps ==> p.typ == MSG_SEND_KEYS && Fits(p)
  }

  lemma {:induction false} ChunkPackets(bytes: seq<byte>)
    ensures AllKeyPackets(ToPackets(MSG_SEND_KEYS, Chunks(bytes)))
    decreases |bytes|
  {
    if bytes != [] {
      var k := Min(|bytes|, MAX_PAYLOAD);
      ToPacketsCons(MSG_SEND_KEYS, bytes[..k], Chunks(bytes[k..]));
      ChunkPackets(bytes[k..]);
    }
  }

  /** The bytes a list of packets types. */
  function Typed(sent: seq<Packet>): seq<byte> { Flatten(Payloads(sent, MSG_SEND_KEYS)) }

  lemma TypedAppend(a: seq<Packet>, bytes: seq<byte>)
    ensures Typed(a + ToPackets(MSG_SEND_KEYS, Chunks(bytes))) == Typed(a) + bytes
  {
    PayloadsAppend(a, ToPackets(MSG_SEND_KEYS, Chunks(bytes)), MSG_SEND_KEYS);
    ToPacketsPayloads(MSG_SEND_KEYS, Chunks(bytes));
    FlattenAppend(Payloads(a, MSG_SEND_KEYS), Chunks(bytes));
    ChunksFlatten(bytes);
  }

  /** The Rust client types exactly what its tokens mean. */
  lemma KeyPacketsType(tokens: seq<Token>, literal: bool)
    ensures Typed(KeyPackets(tokens, literal)) == KeyBytes(tokens, literal)
  {
    ToPacketsPayloads(MSG_SEND_KEYS, Chunks(KeyBytes(tokens, literal)));
    ChunksFlatten(KeyBytes(tokens, literal));
  }

  /** `send_keys_session` in C types the same bytes, in packets of its own. */
  method CSendKeys(tokens: seq<Token>, literal: bool) returns (sent: seq<Packet>)
    requires forall t :: t in tokens ==> Terminated(t)
    ensures Typed(sent) == KeyBytes(tokens, literal)
    ensures AllKeyPackets(sent)
  {
    hide KeyTokenBytes, Bytes, ToPackets, Chunks, Typed, KeyBytes;
    sent := [];
    NothingTyped();
    KeyBytesLast([], "", literal);
    for i := 0 to |tokens|
      invariant Typed(sent) ==
                KeyBytes(tokens[..i], literal) + if literal && 0 < i < |tokens| then [SPACE] else []
      invariant AllKeyPackets(sent)
    {
      var key := tokens[i];
      assert tokens[..i + 1] == tokens[..i] + [key];
      KeyBytesLast(tokens[..i], key, literal);
      var bytes := Bytes(key);
      if !literal {
        var named := CKeyTokenBytes(key);
        if named.Some? {
          bytes := named.value;
        }
      }
      var packets := SendBytes(bytes);
      TypedAppend(sent, bytes);
      ChunkPackets(bytes);
      sent := sent + packets;
      if literal && i + 1 < |tokens| {
        packets := SendBytes([SPACE]);
        TypedAppend(sent, [SPACE]);
        ChunkPackets([SPACE]);
        sent := sent + packets;
      }
    }
    assert tokens[..|tokens|] == tokens;
  }

  lemma NothingTyped()
    ensures Typed([]) == []
  {
  }
}
