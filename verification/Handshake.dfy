/** The handshake packet a Minecraft client opens with. */
module Handshake {
  import opened Bytes
  import opened VarInt

  datatype Packet = Packet(length: nat, packetID: nat, version: nat, serverAddr: Bytes, serverPort: nat, nextState: nat)

  const MAX_ADDRESS := 255

  function ParseAddress(s: Bytes): (r: Parsed<Bytes>)
    ensures r.Got? ==> |r.value| <= MAX_ADDRESS
  {
    var (n, s1) :- ParseVarInt(s, 0);
    if n > MAX_ADDRESS then Bad(AddressTooLong)
    else if |s1| < n then Bad(EndOfInput)
    else Got(s1[..n], s1[n..])
  }

  function ParseShort(s: Bytes): Parsed<nat> {
    if |s| < 2 then Bad(EndOfInput) else Got(FromBigEndian(s[..2]), s[2..])
  }

  function ParseHandshake(s: Bytes): Parsed<Packet> {
    var (length, s1) :- ParseVarInt(s, 0);
    var (packetID, s2) :- ParseVarInt(s1, 0);
    var (version, s3) :- ParseVarInt(s2, 0);
    var (serverAddr, s4) :- ParseAddress(s3);
    var (serverPort, s5) :- ParseShort(s4);
    var (nextState, rest) :- ParseVarInt(s5, 0);
    Got(Packet(length, packetID, version, serverAddr, serverPort, nextState), rest)
  }

  function EncodeHandshake(p: Packet): Bytes {
    EncodeVarInt(p.length) + (EncodeVarInt(p.packetID) + (EncodeVarInt(p.version) + (EncodeVarInt(|p.serverAddr|) +
    (p.serverAddr + (ToBigEndian(p.serverPort, 2) + EncodeVarInt(p.nextState))))))
  }

  predicate Encodable(p: Packet) {
    && p.length < 0x8_0000_0000 && p.packetID < 0x8_0000_0000 && p.version < 0x8_0000_0000
    && |p.serverAddr| <= MAX_ADDRESS && p.serverPort < 0x1_0000 && p.nextState < 0x8_0000_0000
  }

  /** Parsing an encoded handshake gives it back and leaves what follows. */
  lemma HandshakeRoundTrip(p: Packet, tail: Bytes)
    requires Encodable(p)
    ensures ParseHandshake(EncodeHandshake(p) + tail) == Got(p, tail)
  {
    hide ParseVarInt, EncodeVarInt, FromBigEndian, ToBigEndian;
    var s5 := EncodeVarInt(p.nextState);
    var s4 := ToBigEndian(p.serverPort, 2) + s5;
    var a := p.serverAddr + s4;
    var s3 := EncodeVarInt(|p.serverAddr|) + a;
    var s2 := EncodeVarInt(p.version) + s3;
    var s1 := EncodeVarInt(p.packetID) + s2;
    Regroup(EncodeVarInt(p.length), s1, tail);
    Regroup(EncodeVarInt(p.packetID), s2, tail);
    Regroup(EncodeVarInt(p.version), s3, tail);
    Regroup(EncodeVarInt(|p.serverAddr|), a, tail);
    Regroup(p.serverAddr, s4, tail);
    Regroup(ToBigEndian(p.serverPort, 2), s5, tail);
    ReadUndoesWrite(p.length, s1 + tail);
    ReadUndoesWrite(p.packetID, s2 + tail);
    ReadUndoesWrite(p.version, s3 + tail);
    ReadUndoesWrite(|p.serverAddr|, a + tail);
    ReadUndoesWrite(p.nextState, tail);
    AddressRoundTrip(p.serverAddr, s4 + tail);
    PortRoundTrip(p.serverPort, s5 + tail);
  }

  /**
   The layout, byte by byte, where each number takes one byte: length, packet, version, the length of
   the address and the address, the port with its upper byte first, and the next state.
   */
  lemma HandshakeLayout(length: byte, packetID: byte, version: byte, addr: Bytes, high: byte, low: byte, next: byte, tail: Bytes)
    requires length < 128 && packetID < 128 && version < 128 && |addr| < 128 && next < 128
    ensures ParseHandshake([length] + ([packetID] + ([version] + ([|addr|] + (addr + ([high, low] + ([next] + tail))))))) ==
      Got(Packet(length, packetID, version, addr, 256 * (high as int) + low, next), tail)
  {
    hide ParseVarInt, ParseAddress, ParseShort;
    var s4 := [high, low] + ([next] + tail);
    GroupAt(length, [packetID] + ([version] + ([|addr|] + (addr + s4))), 0);
    GroupAt(packetID, [version] + ([|addr|] + (addr + s4)), 0);
    GroupAt(version, [|addr|] + (addr + s4), 0);
    ShortAddress(addr, s4);
    ShortOfTwo(s4);
    assert s4[2..] == [next] + tail;
    GroupAt(next, tail, 0);
  }

  lemma ShortAddress(addr: Bytes, tail: Bytes)
    requires |addr| < 128
    ensures ParseAddress([|addr|] + (addr + tail)) == Got(addr, tail)
  {
    GroupAt(|addr|, addr + tail, 0);
    assert (addr + tail)[..|addr|] == addr && (addr + tail)[|addr|..] == tail;
    hide ParseVarInt;
  }

  lemma ShortOfTwo(s: Bytes)
    ensures ParseShort(s) == if |s| < 2 then Bad(EndOfInput) else Got(256 * (s[0] as int) + s[1], s[2..])
  {
    if |s| >= 2 {
      assert s[..2][..1] == s[..1] && s[..1][..0] == [];
      assert FromBigEndian(s[..1]) == s[0];
      assert FromBigEndian(s[..2]) == 256 * FromBigEndian(s[..1]) + s[1];
    }
  }

  /** An address may take 255 bytes and no more, and is then read whole. */
  lemma AddressLimit(s: Bytes)
    ensures ParseVarInt(s, 0).Got? ==>
      var n, rest := ParseVarInt(s, 0).value, ParseVarInt(s, 0).rest;
      ParseAddress(s) ==
        if n >= 256 then Bad(AddressTooLong) else if |rest| < n then Bad(EndOfInput) else Got(rest[..n], rest[n..])
  {
    hide ParseVarInt;
  }

  lemma AddressRoundTrip(addr: Bytes, tail: Bytes)
    requires |addr| <= MAX_ADDRESS
    ensures ParseAddress(EncodeVarInt(|addr|) + (addr + tail)) == Got(addr, tail)
  {
    hide ParseVarInt, EncodeVarInt;
    ReadUndoesWrite(|addr|, addr + tail);
    assert (addr + tail)[..|addr|] == addr && (addr + tail)[|addr|..] == tail;
  }

  lemma PortRoundTrip(port: nat, tail: Bytes)
    requires port < 0x1_0000
    ensures ParseShort(ToBigEndian(port, 2) + tail) == Got(port, tail)
  {
    assert Pow256(2) == 0x1_0000;
    DecodeInteger(port, 2);
    var s := ToBigEndian(port, 2) + tail;
    assert s[..2] == ToBigEndian(port, 2) && s[2..] == tail;
  }
}
