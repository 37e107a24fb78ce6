/**
 What a connection delivers, chunk by chunk, and what the buffering reader makes of it. The reader
 refills its buffer at most once a call and reports a full read regardless, so a field can be cut
 short and padded with zeros; these functions say exactly when.
 */
module Deliveries {
  import opened Bytes
  import opened VarInt
  import opened Handshake

  const REFILL := 512

  /** What one arrival brings, and whether reading the last of it also reports an error. */
  datatype Delivery = Delivery(bytes: Bytes, fails: bool)

  /** Everything that is still to come. */
  function Stream(ds: seq<Delivery>): Bytes {
    if ds == [] then [] else ds[0].bytes + Stream(ds[1..])
  }

  /** What one read of at most `max` bytes gives. */
  function Given(ds: seq<Delivery>, max: nat): (data: Bytes)
    ensures |data| <= max
  {
    if ds == [] then [] else if |ds[0].bytes| <= max then ds[0].bytes else ds[0].bytes[..max]
  }

  /** It reports an error; after everything, the end of the input. */
  predicate Failing(ds: seq<Delivery>, max: nat) {
    ds == [] || (|ds[0].bytes| <= max && ds[0].fails)
  }

  /** What it leaves. */
  function Left(ds: seq<Delivery>, max: nat): seq<Delivery> {
    if ds == [] then [] else if |ds[0].bytes| <= max then ds[1..] else [ds[0].(bytes := ds[0].bytes[max..])] + ds[1..]
  }

  /** No read reports an error before everything has been read. */
  predicate NeverFails(ds: seq<Delivery>) { forall d | d in ds :: !d.fails }

  lemma LeftNeverFails(ds: seq<Delivery>, max: nat)
    requires NeverFails(ds)
    ensures NeverFails(Left(ds, max)) && (Failing(ds, max) ==> ds == [])
  {
    if ds != [] {
      assert ds[0] in ds;
    }
  }

  lemma NothingIsLost(ds: seq<Delivery>, max: nat)
    ensures Stream(ds) == Given(ds, max) + Stream(Left(ds, max))
  {
    if ds != [] && |ds[0].bytes| > max {
      assert Left(ds, max)[1..] == ds[1..];
      Regroup(ds[0].bytes[..max], ds[0].bytes[max..], Stream(ds[1..]));
      assert ds[0].bytes == ds[0].bytes[..max] + ds[0].bytes[max..];
    }
  }

  // ---- the reader ----

  /** The reader and its connection. `cut`: some call has returned more bytes than there were. */
  datatype Source = Source(buf: Bytes, pos: nat, ds: seq<Delivery>, cut: bool)

  datatype Taking<+T> = Took(value: T, after: Source) | Lost(error: ReadError, after: Source) {
    predicate IsFailure() { Lost? }
    function PropagateFailure<U>(): Taking<U>
      requires Lost?
    {
      Lost(error, after)
    }
    function Extract(): (T, Source)
      requires Took?
    {
      (value, after)
    }
  }

  function Padded(s: Bytes, n: nat): (r: Bytes)
    ensures |r| == n
    ensures n <= |s| ==> r == s[..n]
  {
    if n <= |s| then s[..n] else s + seq(n - |s|, _ => 0)
  }

  /** What is in the buffer goes out, and zeros for what is not; behind the buffer the slice panics. */
  function TakeBuffered(r: Source, n: nat): Taking<Bytes> {
    if r.pos > |r.buf| then Lost(Panic, r)
    else Took(Padded(r.buf[r.pos..], n), r.(pos := r.pos + n, cut := r.cut || |r.buf| < r.pos + n))
  }

  function Refilled(r: Source): Source {
    r.(buf := r.buf + Given(r.ds, REFILL), ds := Left(r.ds, REFILL))
  }

  /** `Read` of `n` bytes. */
  function Take(r: Source, n: nat): Taking<Bytes> {
    if r.pos + n <= |r.buf| then TakeBuffered(r, n)
    else if Failing(r.ds, REFILL) then Lost(EndOfInput, r.(ds := Left(r.ds, REFILL)))
    else TakeBuffered(Refilled(r), n)
  }

  /**
   What the reader takes off the connection: nothing if the buffer has enough, and else what one read
   gives, at most 512 bytes of one chunk.
   */
  lemma RefillIsBounded(r: Source, n: nat)
    ensures var t := Take(r, n).after;
      if r.pos + n <= |r.buf| then t.buf == r.buf && t.ds == r.ds
      else if r.ds == [] then Take(r, n) == Lost(EndOfInput, r)
      else if r.ds[0].fails && |r.ds[0].bytes| <= 512 then Take(r, n).Lost? && t.buf == r.buf && t.ds == r.ds[1..]
      else if |r.ds[0].bytes| <= 512 then t.buf == r.buf + r.ds[0].bytes && t.ds == r.ds[1..]
      else t.buf == r.buf + r.ds[0].bytes[..512] && t.ds == [r.ds[0].(bytes := r.ds[0].bytes[512..])] + r.ds[1..]
  {
  }

  function TakeVarInt(r: Source, k: nat): Taking<nat>
    requires k < MAX_GROUPS
    decreases MAX_GROUPS - k
  {
    var (b, r1) :- Take(r, 1);
    if b[0] < 128 then Took(b[0], r1)
    else if k + 1 == MAX_GROUPS then Lost(TooLongVarInt, r1)
    else
      var (more, r2) :- TakeVarInt(r1, k + 1);
      Took(b[0] - 128 + 128 * more, r2)
  }

  function TakeAddress(r: Source): Taking<Bytes> {
    var (n, r1) :- TakeVarInt(r, 0);
    if n > MAX_ADDRESS then Lost(AddressTooLong, r1) else Take(r1, n)
  }

  function TakeShort(r: Source): Taking<nat> {
    var (bytes, r1) :- Take(r, 2);
    Took(FromBigEndian(bytes), r1)
  }

  function TakeHandshake(r: Source): Taking<Packet> {
    var (length, r1) :- TakeVarInt(r, 0);
    var (packetID, r2) :- TakeVarInt(r1, 0);
    var (version, r3) :- TakeVarInt(r2, 0);
    var (serverAddr, r4) :- TakeAddress(r3);
    var (serverPort, r5) :- TakeShort(r4);
    var (nextState, r6) :- TakeVarInt(r5, 0);
    Took(Packet(length, packetID, version, serverAddr, serverPort, nextState), r6)
  }

  // ---- nothing taken off the connection is lost ----

  /** Everything from the beginning of the connection: what is buffered and what is still to come. */
  function Everything(r: Source): Bytes { r.buf + Stream(r.ds) }

  /** After a success everything is still there; and once something was cut short, that stays. */
  predicate Keeps<T>(r: Source, t: Taking<T>) {
    && (t.Took? ==> Everything(t.after) == Everything(r))
    && (r.cut ==> t.after.cut) && (NeverFails(r.ds) ==> NeverFails(t.after.ds))
  }

  lemma TakeKeeps(r: Source, n: nat)
    ensures Keeps(r, Take(r, n))
  {
    if NeverFails(r.ds) {
      LeftNeverFails(r.ds, REFILL);
    }
    hide NeverFails, Left;
    NothingIsLost(r.ds, REFILL);
    Regroup(r.buf, Given(r.ds, REFILL), Stream(Left(r.ds, REFILL)));
  }

  lemma {:induction false} TakeVarIntKeeps(r: Source, k: nat)
    requires k < MAX_GROUPS
    ensures Keeps(r, TakeVarInt(r, k))
    decreases MAX_GROUPS - k
  {
    hide Take, Everything, NeverFails;
    TakeKeeps(r, 1);
    TakeLength(r, 1);
    var b := Take(r, 1);
    if b.Took? && b.value[0] >= 128 && k + 1 < MAX_GROUPS {
      TakeVarIntKeeps(b.after, k + 1);
    }
  }

  lemma TakeAddressKeeps(r: Source)
    ensures Keeps(r, TakeAddress(r))
  {
    hide Take, TakeVarInt, Everything, NeverFails;
    TakeVarIntKeeps(r, 0);
    var n := TakeVarInt(r, 0);
    if n.Took? {
      TakeKeeps(n.after, n.value);
    }
  }

  /** After any successful handshake, under any chunking, the buffer is exactly what was taken off the connection. */
  lemma HandshakeKeeps(r: Source)
    ensures Keeps(r, TakeHandshake(r))
  {
    hide Take, TakeVarInt, TakeAddress, Everything, NeverFails;
    TakeVarIntKeeps(r, 0);
    var length := TakeVarInt(r, 0);
    if length.Took? {
      TakeVarIntKeeps(length.after, 0);
      var packetID := TakeVarInt(length.after, 0);
      if packetID.Took? {
        TakeVarIntKeeps(packetID.after, 0);
        var version := TakeVarInt(packetID.after, 0);
        if version.Took? {
          TakeAddressKeeps(version.after);
          var serverAddr := TakeAddress(version.after);
          if serverAddr.Took? {
            TakeKeeps(serverAddr.after, 2);
            var serverPort := TakeShort(serverAddr.after);
            if serverPort.Took? {
              TakeVarIntKeeps(serverPort.after, 0);
            }
          }
        }
      }
    }
  }

  // ---- as long as nothing is cut short, reading is parsing ----

  predicate Fine(r: Source) { !r.cut && r.pos <= |r.buf| }

  /** What the next field is read from. */
  function Ahead(r: Source): Bytes
    requires r.pos <= |r.buf|
  {
    r.buf[r.pos..] + Stream(r.ds)
  }

  /** Unless something was cut short, a success is what parsing gives, and goes on where it ends. */
  predicate ParsesAs<T(==)>(parsed: Parsed<T>, t: Taking<T>) {
    t.Took? && !t.after.cut ==> Fine(t.after) && parsed == Got(t.value, Ahead(t.after))
  }

  lemma TakeParses(r: Source, n: nat)
    requires Fine(r)
    ensures var t := Take(r, n); t.Took? && !t.after.cut ==> Fine(t.after) && Ahead(r) == t.value + Ahead(t.after)
  {
    var full := if r.pos + n <= |r.buf| then r else Refilled(r);
    if !Failing(r.ds, REFILL) || full == r {
      NothingIsLost(r.ds, REFILL);
      if full != r {
        assert full.buf[r.pos..] == r.buf[r.pos..] + Given(r.ds, REFILL);
        Regroup(r.buf[r.pos..], Given(r.ds, REFILL), Stream(full.ds));
      }
      if r.pos + n <= |full.buf| {
        assert full.buf[r.pos..] == full.buf[r.pos..][..n] + full.buf[r.pos + n..];
        Regroup(full.buf[r.pos..][..n], full.buf[r.pos + n..], Stream(full.ds));
      }
    }
  }

  lemma {:induction false} TakeVarIntParses(r: Source, k: nat)
    requires Fine(r) && k < MAX_GROUPS
    ensures ParsesAs(ParseVarInt(Ahead(r), k), TakeVarInt(r, k))
    decreases MAX_GROUPS - k
  {
    hide Take, Ahead, Everything, NeverFails;
    var b := Take(r, 1);
    TakeParses(r, 1);
    TakeLength(r, 1);
    if b.Took? {
      assert b.value == [b.value[0]];
      if b.value[0] >= 128 && k + 1 < MAX_GROUPS {
        TakeVarIntKeeps(b.after, k + 1);
        if !b.after.cut {
          TakeVarIntParses(b.after, k + 1);
          assert Ahead(r)[1..] == Ahead(b.after);
        }
      } else if !b.after.cut {
        assert Ahead(r)[1..] == Ahead(b.after);
      }
    }
  }

  lemma TakeAddressParses(r: Source)
    requires Fine(r)
    ensures ParsesAs(ParseAddress(Ahead(r)), TakeAddress(r))
  {
    hide Take, TakeVarInt, ParseVarInt, Ahead;
    TakeVarIntParses(r, 0);
    var n := TakeVarInt(r, 0);
    if n.Took? && n.value <= MAX_ADDRESS {
      TakeKeeps(n.after, n.value);
      var addr := Take(n.after, n.value);
      if !n.after.cut {
        TakeParses(n.after, n.value);
        if addr.Took? && !addr.after.cut {
          TakeLength(n.after, n.value);
          var s := Ahead(n.after);
          assert s[..n.value] == addr.value && s[n.value..] == Ahead(addr.after);
        }
      }
    }
  }

  lemma TakeLength(r: Source, n: nat)
    ensures Take(r, n).Took? ==> |Take(r, n).value| == n
  {
  }

  lemma TakeShortParses(r: Source)
    requires Fine(r)
    ensures ParsesAs(ParseShort(Ahead(r)), TakeShort(r))
  {
    hide Take, FromBigEndian, Ahead;
    TakeParses(r, 2);
    TakeLength(r, 2);
    var bytes := Take(r, 2);
    if bytes.Took? && !bytes.after.cut {
      var s := Ahead(r);
      assert s[..2] == bytes.value && s[2..] == Ahead(bytes.after);
    }
  }

  /** Unless some field was cut short, the packet is the one on the stream. */
  lemma HandshakeParses(r: Source)
    requires Fine(r)
    ensures ParsesAs(ParseHandshake(Ahead(r)), TakeHandshake(r))
  {
    hide Take, TakeVarInt, TakeAddress, TakeShort, ParseVarInt, ParseAddress, ParseShort, Ahead, Everything;
    var length := TakeVarInt(r, 0);
    TakeVarIntParses(r, 0);
    if length.Took? {
      var packetID := TakeVarInt(length.after, 0);
      VarIntStep(length.after);
      if packetID.Took? {
        var version := TakeVarInt(packetID.after, 0);
        VarIntStep(packetID.after);
        if version.Took? {
          var serverAddr := TakeAddress(version.after);
          AddressStep(version.after);
          if serverAddr.Took? {
            var serverPort := TakeShort(serverAddr.after);
            ShortStep(serverAddr.after);
            if serverPort.Took? {
              VarIntStep(serverPort.after);
            }
          }
        }
      }
    }
  }

  lemma VarIntStep(r: Source)
    ensures r.cut ==> TakeVarInt(r, 0).after.cut
    ensures Fine(r) ==> ParsesAs(ParseVarInt(Ahead(r), 0), TakeVarInt(r, 0))
  {
    TakeVarIntKeeps(r, 0);
    if Fine(r) {
      TakeVarIntParses(r, 0);
    }
  }

  lemma AddressStep(r: Source)
    ensures r.cut ==> TakeAddress(r).after.cut
    ensures Fine(r) ==> ParsesAs(ParseAddress(Ahead(r)), TakeAddress(r))
  {
    TakeAddressKeeps(r);
    if Fine(r) {
      TakeAddressParses(r);
    }
  }

  lemma ShortStep(r: Source)
    ensures r.cut ==> TakeShort(r).after.cut
    ensures Fine(r) ==> ParsesAs(ParseShort(Ahead(r)), TakeShort(r))
  {
    TakeKeeps(r, 2);
    if Fine(r) {
      TakeShortParses(r);
    }
  }
}
