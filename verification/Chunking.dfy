/** Exactly which chunkings of a handshake cut a field short. */
module Chunking {
  import opened Bytes
  import opened VarInt
  import opened Handshake
  import opened Deliveries

  function After(ds: seq<Delivery>, k: nat): seq<Delivery> {
    if k == 0 then ds else Left(After(ds, k - 1), REFILL)
  }

  /** How much is in the buffer after `k` refills. */
  function Boundary(ds: seq<Delivery>, k: nat): nat {
    if k == 0 then 0 else Boundary(ds, k - 1) + |Given(After(ds, k - 1), REFILL)|
  }

  /** Two refills in a row end within the `n` bytes from `at` on. */
  ghost predicate SplitTwice(ds: seq<Delivery>, at: nat, n: nat) {
    exists k: nat {:trigger BoundaryAfter(ds, k)} :: at <= Boundary(ds, k) && BoundaryAfter(ds, k) < at + n
  }

  function BoundaryAfter(ds: seq<Delivery>, k: nat): nat { Boundary(ds, k + 1) }

  /** Every delivery brings something, and the connection does not fail. */
  predicate Healthy(ds: seq<Delivery>) {
    forall d | d in ds :: d.bytes != [] && !d.fails
  }

  lemma {:induction false} BoundariesGrow(ds: seq<Delivery>, j: nat, k: nat)
    requires j <= k
    ensures Boundary(ds, j) <= Boundary(ds, k)
    decreases k
  {
    if j < k {
      BoundariesGrow(ds, j, k - 1);
    }
  }

  lemma {:induction false} AfterIsHealthy(ds: seq<Delivery>, k: nat)
    requires Healthy(ds)
    ensures Healthy(After(ds, k))
  {
    if k > 0 {
      AfterIsHealthy(ds, k - 1);
    }
  }

  /**
   The reader is where `k` refills have brought it, nothing has been cut short, and the last refill
   was needed.
   */
  predicate Steady(r: Source, ds: seq<Delivery>, k: nat) {
    && Fine(r) && r.ds == After(ds, k) && |r.buf| == Boundary(ds, k) && Everything(r) == Stream(ds)
    && (k > 0 ==> Boundary(ds, k - 1) < r.pos)
  }

  lemma SomethingLeft(r: Source)
    requires Healthy(r.ds) && |r.buf| < |Everything(r)|
    ensures r.ds != [] && !Failing(r.ds, REFILL) && Given(r.ds, REFILL) != []
  {
    assert r.ds[0] in r.ds;
  }

  /** With `at` reached by `k` refills and not before, a split is one by the next refill. */
  lemma SplitByNextRefill(ds: seq<Delivery>, k: nat, at: nat, n: nat)
    requires at <= Boundary(ds, k) && (k > 0 ==> Boundary(ds, k - 1) < at)
    ensures SplitTwice(ds, at, n) <==> BoundaryAfter(ds, k) < at + n
    ensures Boundary(ds, k) <= BoundaryAfter(ds, k) == Boundary(ds, k + 1)
  {
    hide Boundary;
    BoundariesGrow(ds, k, k + 1);
    forall j: nat {:trigger BoundaryAfter(ds, j)} | at <= Boundary(ds, j)
      ensures BoundaryAfter(ds, j) >= BoundaryAfter(ds, k)
    {
      if j < k {
        BoundariesGrow(ds, j, k - 1);
      }
      BoundariesGrow(ds, k + 1, j + 1);
    }
    if BoundaryAfter(ds, k) < at + n {
      assert at <= Boundary(ds, k);
    }
  }

  lemma RefillIsSteady(r: Source, ds: seq<Delivery>, k: nat)
    requires Healthy(ds) && Steady(r, ds, k) && |r.buf| < |Stream(ds)|
    ensures !Failing(r.ds, REFILL)
    ensures var full := Refilled(r);
      full.ds == After(ds, k + 1) && |full.buf| == Boundary(ds, k + 1) && Everything(full) == Stream(ds)
  {
    AfterIsHealthy(ds, k);
    SomethingLeft(r);
    NothingIsLost(r.ds, REFILL);
    Regroup(r.buf, Given(r.ds, REFILL), Stream(Left(r.ds, REFILL)));
  }

  /** A field is cut short exactly if two refills in a row end within it. */
  lemma TakeIsCutExactly(r: Source, ds: seq<Delivery>, k: nat, n: nat) returns (k': nat)
    requires Healthy(ds) && Steady(r, ds, k) && r.pos + n <= |Stream(ds)|
    ensures Take(r, n).Took? && Take(r, n).after.pos == r.pos + n
    ensures Everything(Take(r, n).after) == Stream(ds)
    ensures Take(r, n).after.cut <==> SplitTwice(ds, r.pos, n)
    ensures !Take(r, n).after.cut ==> Steady(Take(r, n).after, ds, k')
  {
    hide SplitTwice, After, Given, Left, Stream, Healthy, Boundary, BoundaryAfter, Failing, Padded, Everything;
    SplitByNextRefill(ds, k, r.pos, n);
    k' := k;
    if |r.buf| < r.pos + n {
      RefillIsSteady(r, ds, k);
      k' := k + 1;
      SameEverything(Refilled(r), n);
    } else {
      SameEverything(r, n);
    }
  }

  lemma SameEverything(r: Source, n: nat)
    requires r.pos <= |r.buf|
    ensures var t := TakeBuffered(r, n); t.Took? && Everything(t.after) == Everything(r)
  {
  }

  /** A single byte is never cut short. */
  lemma ByteIsWhole(ds: seq<Delivery>, k: nat, r: Source)
    requires Healthy(ds) && Steady(r, ds, k) && r.pos < |Stream(ds)|
    ensures !SplitTwice(ds, r.pos, 1)
  {
    SplitByNextRefill(ds, k, r.pos, 1);
    if |r.buf| == r.pos {
      AfterIsHealthy(ds, k);
      SomethingLeft(r);
    }
    hide SplitTwice;
  }

  lemma AheadIsLeft(r: Source)
    requires Fine(r)
    ensures |Ahead(r)| == |Everything(r)| - r.pos
  {
  }

  lemma {:induction false} VarIntIsWhole(r: Source, ds: seq<Delivery>, k: nat, g: nat) returns (k': nat)
    requires Healthy(ds) && Steady(r, ds, k) && g < MAX_GROUPS && ParseVarInt(Ahead(r), g).Got?
    ensures var t := TakeVarInt(r, g); t.Took? && !t.after.cut && Steady(t.after, ds, k')
    decreases MAX_GROUPS - g
  {
    hide Steady, Healthy, Take, Ahead, Stream, SplitTwice, Everything;
    SteadyFacts(r, ds, k);
    AheadIsLeft(r);
    ByteIsWhole(ds, k, r);
    k' := TakeIsCutExactly(r, ds, k, 1);
    TakeParses(r, 1);
    TakeLength(r, 1);
    var b := Take(r, 1);
    assert b.value == [b.value[0]];
    SteadyFacts(b.after, ds, k');
    assert Ahead(r)[1..] == Ahead(b.after) && Ahead(r)[0] == b.value[0];
    if b.value[0] >= 128 {
      k' := VarIntIsWhole(b.after, ds, k', g + 1);
    }
  }

  lemma SteadyFacts(r: Source, ds: seq<Delivery>, k: nat)
    requires Steady(r, ds, k)
    ensures Fine(r) && Everything(r) == Stream(ds)
  {
  }

  // ---- a whole handshake ----

  function Start(ds: seq<Delivery>): Source { Source([], 0, ds, false) }

  /** Where the address begins. */
  function AddressAt(p: Packet): nat {
    |EncodeVarInt(p.length)| + |EncodeVarInt(p.packetID)| + |EncodeVarInt(p.version)| + |EncodeVarInt(|p.serverAddr|)|
  }

  /** A number that has been written is read back whole. */
  lemma VarIntRead(r: Source, ds: seq<Delivery>, k: nat, v: nat, rest: Bytes) returns (k': nat)
    requires Healthy(ds) && Steady(r, ds, k) && v < 0x8_0000_0000 && Ahead(r) == EncodeVarInt(v) + rest
    ensures var t := TakeVarInt(r, 0);
      && t.Took? && t.value == v && Steady(t.after, ds, k')
      && Ahead(t.after) == rest && t.after.pos == r.pos + |EncodeVarInt(v)|
  {
    hide Healthy, TakeVarInt, ParseVarInt, EncodeVarInt, Stream, Boundary, After;
    ReadUndoesWrite(v, rest);
    k' := VarIntIsWhole(r, ds, k, 0);
    TakeVarIntParses(r, 0);
    var t := TakeVarInt(r, 0);
    AheadIsLeft(r);
    AheadIsLeft(t.after);
    hide Everything, Ahead;
  }

  /** The rest of a handshake from its address on. */
  function EncodeFromAddress(p: Packet, tail: Bytes): Bytes {
    p.serverAddr + (ToBigEndian(p.serverPort, 2) + (EncodeVarInt(p.nextState) + tail))
  }

  lemma HandshakeLayout(p: Packet, tail: Bytes)
    ensures EncodeHandshake(p) + tail ==
      EncodeVarInt(p.length) + (EncodeVarInt(p.packetID) + (EncodeVarInt(p.version) +
      (EncodeVarInt(|p.serverAddr|) + EncodeFromAddress(p, tail))))
  {
    hide EncodeVarInt, ToBigEndian;
    var s5 := EncodeVarInt(p.nextState);
    var s4 := ToBigEndian(p.serverPort, 2) + s5;
    var a := p.serverAddr + s4;
    var s3 := EncodeVarInt(|p.serverAddr|) + a;
    var s2 := EncodeVarInt(p.version) + s3;
    var s1 := EncodeVarInt(p.packetID) + s2;
    Regroup(EncodeVarInt(p.length), s1, tail);
    Regroup(EncodeVarInt(p.packetID), s2, tail);
    Regroup(EncodeVarInt(p.version), s3, tail);
    Regroup(EncodeVarInt(|p.serverAddr|), a, tail);
    Regroup(p.serverAddr, s4, tail);
    Regroup(ToBigEndian(p.serverPort, 2), s5, tail);
  }

  /** The four numbers in front of the address are read back whole, under any chunking. */
  lemma NumbersRead(p: Packet, tail: Bytes, ds: seq<Delivery>) returns (r: Source, k: nat)
    requires Encodable(p) && Healthy(ds) && Stream(ds) == EncodeHandshake(p) + tail
    ensures Steady(r, ds, k) && r.pos == AddressAt(p) && Ahead(r) == EncodeFromAddress(p, tail)
    ensures TakeHandshake(Start(ds)) == TakeFromAddress(p, r)
  {
    hide Healthy, Steady, TakeVarInt, Take, EncodeVarInt, Stream, Ahead, EncodeHandshake, EncodeFromAddress, Encodable;
    HandshakeLayout(p, tail);
    NumbersFit(p);
    var r0, from := Start(ds), EncodeFromAddress(p, tail);
    StartIsSteady(ds);
    var s3 := EncodeVarInt(|p.serverAddr|) + from;
    var s2 := EncodeVarInt(p.version) + s3;
    var s1 := EncodeVarInt(p.packetID) + s2;
    k := VarIntRead(r0, ds, 0, p.length, s1);
    var r1 := TakeVarInt(r0, 0).after;
    k := VarIntRead(r1, ds, k, p.packetID, s2);
    var r2 := TakeVarInt(r1, 0).after;
    k := VarIntRead(r2, ds, k, p.version, s3);
    var r3 := TakeVarInt(r2, 0).after;
    k := VarIntRead(r3, ds, k, |p.serverAddr|, from);
    r := TakeVarInt(r3, 0).after;
  }

  lemma NumbersFit(p: Packet)
    requires Encodable(p)
    ensures p.length < 0x8_0000_0000 && p.packetID < 0x8_0000_0000 && p.version < 0x8_0000_0000
    ensures |p.serverAddr| <= MAX_ADDRESS
  {
  }

  lemma StartIsSteady(ds: seq<Delivery>)
    ensures Steady(Start(ds), ds, 0) && Ahead(Start(ds)) == Stream(ds)
  {
    assert [] + Stream(ds) == Stream(ds);
  }

  /** Reading on behind the length of the address. */
  function TakeFromAddress(p: Packet, r: Source): Taking<Packet> {
    var (serverAddr, r4) :- Take(r, |p.serverAddr|);
    var (serverPort, r5) :- TakeShort(r4);
    var (nextState, r6) :- TakeVarInt(r5, 0);
    Took(Packet(p.length, p.packetID, p.version, serverAddr, serverPort, nextState), r6)
  }

  /**
   For every chunking of a handshake and of what follows it, in which the connection does not fail:
   some field is cut short exactly if two refills in a row end within the address, or within the
   port. If none is, the packet is the one sent, and reading goes on behind it.
   */
  lemma HandshakeIsCutExactly(p: Packet, tail: Bytes, ds: seq<Delivery>)
    requires Encodable(p) && Healthy(ds) && Stream(ds) == EncodeHandshake(p) + tail
    ensures var t, at := TakeHandshake(Start(ds)), AddressAt(p);
      && (t.after.cut <==> SplitTwice(ds, at, |p.serverAddr|) || SplitTwice(ds, at + |p.serverAddr|, 2))
      && (!t.after.cut ==> Fine(t.after) && t == Took(p, t.after) && Ahead(t.after) == tail)
  {
    hide *;
    var r, k := NumbersRead(p, tail, ds);
    var n, rest := |p.serverAddr|, EncodeFromPort(p, tail);
    AddressIsThere(p, tail, r, ds, k);
    k := TakeIsCutExactly(r, ds, k, n);
    TakeParses(r, n);
    TakeLength(r, n);
    var addr := Take(r, n);
    FromAddress(p, r);
    AfterAddressKeeps(addr.after);
    if !addr.after.cut {
      SteadyFacts(addr.after, ds, k);
      SameFront(p.serverAddr, rest, addr.value, Ahead(addr.after));
      PortIsCutExactly(p, tail, addr.after, ds, k);
    }
  }

  function EncodeFromPort(p: Packet, tail: Bytes): Bytes {
    ToBigEndian(p.serverPort, 2) + (EncodeVarInt(p.nextState) + tail)
  }

  lemma AddressIsThere(p: Packet, tail: Bytes, r: Source, ds: seq<Delivery>, k: nat)
    requires Steady(r, ds, k) && Ahead(r) == EncodeFromAddress(p, tail)
    ensures Fine(r) && r.pos + |p.serverAddr| <= |Stream(ds)|
    ensures Ahead(r) == p.serverAddr + EncodeFromPort(p, tail)
  {
    AheadIsLeft(r);
  }

  /** Reading on behind the length is reading the address and then the rest. */
  lemma FromAddress(p: Packet, r: Source)
    ensures var addr, t := Take(r, |p.serverAddr|), TakeFromAddress(p, r);
      && (addr.Lost? ==> t == Lost(addr.error, addr.after))
      && (addr.Took? ==>
           var more := TakeFromPort(addr.after);
           && (more.Lost? ==> t == Lost(more.error, more.after))
           && (more.Took? ==>
                t == Took(Packet(p.length, p.packetID, p.version, addr.value, more.value.0, more.value.1), more.after)))
  {
    hide Take, TakeShort, TakeVarInt;
  }

  lemma SameFront(a: Bytes, b: Bytes, c: Bytes, d: Bytes)
    requires a + b == c + d && |a| == |c|
    ensures a == c && b == d
  {
    assert (a + b)[..|a|] == a && (c + d)[..|a|] == c;
    assert (a + b)[|a|..] == b && (c + d)[|a|..] == d;
  }

  /** Reading on behind the address. */
  function TakeFromPort(r: Source): Taking<(nat, nat)> {
    var (serverPort, r5) :- TakeShort(r);
    var (nextState, r6) :- TakeVarInt(r5, 0);
    Took((serverPort, nextState), r6)
  }

  lemma AfterAddressKeeps(r: Source)
    ensures r.cut ==> TakeFromPort(r).after.cut
  {
    hide TakeShort, TakeVarInt;
    ShortStep(r);
    if TakeShort(r).Took? {
      VarIntStep(TakeShort(r).after);
    }
  }

  lemma PortIsCutExactly(p: Packet, tail: Bytes, r: Source, ds: seq<Delivery>, k: nat)
    requires Encodable(p) && Healthy(ds) && Steady(r, ds, k)
    requires Ahead(r) == EncodeFromPort(p, tail)
    ensures var t := TakeFromPort(r);
      && (t.after.cut <==> SplitTwice(ds, r.pos, 2))
      && (!t.after.cut ==> t.Took? && t.value == (p.serverPort, p.nextState) && Fine(t.after) && Ahead(t.after) == tail)
  {
    hide Healthy, TakeVarInt, Take, EncodeVarInt, Stream, SplitTwice, After, Boundary, FromBigEndian, ToBigEndian, ParseVarInt;
    AheadIsLeft(r);
    var k2 := TakeIsCutExactly(r, ds, k, 2);
    TakeParses(r, 2);
    TakeLength(r, 2);
    var bytes := Take(r, 2);
    if bytes.after.cut {
      VarIntStep(bytes.after);
    } else {
      var rest := EncodeVarInt(p.nextState) + tail;
      SameFront(ToBigEndian(p.serverPort, 2), rest, bytes.value, Ahead(bytes.after));
      PortValue(p.serverPort);
      k2 := VarIntRead(bytes.after, ds, k2, p.nextState, tail);
    }
  }

  lemma PortValue(port: nat)
    requires port < 0x1_0000
    ensures FromBigEndian(ToBigEndian(port, 2)) == port
  {
    assert Pow256(2) == 0x1_0000;
    DecodeInteger(port, 2);
  }

  // ---- one that is cut short, and one that never is ----

  const SENT := Packet(8, 0, 5, [7, 8], 0x6364, 2)

  /** The two bytes of the address arrive in separate chunks, after a chunk that ends before them. */
  const CHUNKS := [
    Delivery([8, 0, 5, 2], false), Delivery([7], false), Delivery([8, 0x63, 0x64, 2], false)]

  const FRONT: Bytes := [8, 0, 5, 2]
  const BOTH: Bytes := [8, 0, 5, 2, 7]
  const ALL: Bytes := [8, 0, 5, 2, 7, 8, 0x63, 0x64, 2]

  /** The handshake succeeds, with the second byte of the address replaced by a zero and all else as sent. */
  lemma AddressComesOutPadded()
    ensures Encodable(SENT) && Healthy(CHUNKS) && Stream(CHUNKS) == EncodeHandshake(SENT)
    ensures TakeHandshake(Start(CHUNKS)).Took? && TakeHandshake(Start(CHUNKS)).value == SENT.(serverAddr := [7, 0])
  {
    hide Take, TakeVarInt, Encodable, Healthy, Stream, EncodeHandshake;
    SentEncodes();
    SentInChunks();
    FirstByte();
    BufferedByte(FRONT, 1, CHUNKS[1..], false);
    BufferedByte(FRONT, 2, CHUNKS[1..], false);
    BufferedByte(FRONT, 3, CHUNKS[1..], false);
    AddressBytes();
    PortBytes();
    BufferedByte(ALL, 8, [], true);
    hide FromBigEndian;
  }

  lemma BufferedByte(buf: Bytes, pos: nat, ds: seq<Delivery>, cut: bool)
    requires pos < |buf| && buf[pos] < 128
    ensures TakeVarInt(Source(buf, pos, ds, cut), 0) == Took(buf[pos], Source(buf, pos + 1, ds, cut))
  {
    assert buf[pos..][..1] == [buf[pos]];
  }

  lemma SentEncodes()
    ensures Encodable(SENT) && EncodeHandshake(SENT) == ALL
  {
    assert ToBigEndian(0x6364, 2) == [0x63] + [0x64] by {
      assert ToBigEndian(0x63, 1) == [] + [0x63] == [0x63];
    }
    assert EncodeVarInt(8) == [8] && EncodeVarInt(0) == [0] && EncodeVarInt(5) == [5] && EncodeVarInt(2) == [2];
    hide ToBigEndian, EncodeVarInt;
    var s4: Bytes := [0x63] + [0x64] + [2];
    assert s4 == [0x63, 0x64, 2];
    var s3: Bytes := [7, 8] + s4;
    assert s3 == [7, 8, 0x63, 0x64, 2];
    var s2: Bytes := [5] + ([2] + s3);
    assert s2 == [5, 2, 7, 8, 0x63, 0x64, 2];
  }

  lemma SentInChunks()
    ensures Healthy(CHUNKS) && Stream(CHUNKS) == ALL
  {
    assert CHUNKS[1..][1..] == CHUNKS[2..] && CHUNKS[2..][1..] == [];
    assert Stream(CHUNKS[2..]) == [8, 0x63, 0x64, 2] + [] == [8, 0x63, 0x64, 2];
    assert Stream(CHUNKS[1..]) == [7] + [8, 0x63, 0x64, 2] == [7, 8, 0x63, 0x64, 2];
    hide Stream;
  }

  lemma FirstByte()
    ensures TakeVarInt(Start(CHUNKS), 0) == Took(8, Source(FRONT, 1, CHUNKS[1..], false))
  {
    var full := Refilled(Start(CHUNKS));
    assert full.buf == FRONT && full.ds == CHUNKS[1..];
    assert full.buf[0..][..1] == [8];
  }

  lemma AddressBytes()
    ensures Take(Source(FRONT, 4, CHUNKS[1..], false), 2) == Took([7, 0], Source(BOTH, 6, CHUNKS[2..], true))
  {
    var r := Source(FRONT, 4, CHUNKS[1..], false);
    var full := Refilled(r);
    assert CHUNKS[1..][0] == CHUNKS[1] && CHUNKS[1..][1..] == CHUNKS[2..];
    assert full.buf == BOTH && full.ds == CHUNKS[2..];
    assert BOTH[4..] == [7];
    assert Padded([7], 2) == [7, 0];
  }

  lemma PortBytes()
    ensures TakeShort(Source(BOTH, 6, CHUNKS[2..], true)) == Took(0x6364, Source(ALL, 8, [], true))
  {
    var r := Source(BOTH, 6, CHUNKS[2..], true);
    var full := Refilled(r);
    assert CHUNKS[2..][0] == CHUNKS[2] && CHUNKS[2..][1..] == [];
    assert full.buf == ALL && full.ds == [];
    assert ALL[6..][..2] == [0x63, 0x64];
    assert [0x63, 0x64][..1] == [0x63] && FromBigEndian([0x63]) == 0x63;
  }

  /** A handshake that arrives in one chunk is never cut short. */
  lemma OneChunkIsWhole(p: Packet, tail: Bytes, ds: seq<Delivery>)
    requires Encodable(p) && Healthy(ds) && Stream(ds) == EncodeHandshake(p) + tail
    requires |Given(ds, REFILL)| >= AddressAt(p) + |p.serverAddr| + 2
    ensures !TakeHandshake(Start(ds)).after.cut && TakeHandshake(Start(ds)) == Took(p, TakeHandshake(Start(ds)).after)
  {
    HandshakeIsCutExactly(p, tail, ds);
    assert Boundary(ds, 1) == |Given(ds, REFILL)|;
    forall k: nat {:trigger BoundaryAfter(ds, k)}
      ensures BoundaryAfter(ds, k) >= Boundary(ds, 1)
    {
      BoundariesGrow(ds, 1, k + 1);
    }
    hide Boundary, BoundaryAfter, TakeHandshake, Encodable, Healthy, Stream;
  }
}
