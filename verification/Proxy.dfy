/** The buffering reader, and the proxy that replays what it has buffered to the game server. */
module Proxy {
  import opened Bytes
  import opened VarInt
  import opened Handshake
  import opened Deliveries

  /** A connection: what its peer has sent and nobody has read yet, as the network delivers it. */
  class Connection {
    var deliveries: seq<Delivery>

    constructor (deliveries: seq<Delivery>)
      ensures this.deliveries == deliveries
    {
      this.deliveries := deliveries;
    }

    method Read(max: nat) returns (data: Bytes, failed: bool)
      modifies this
      ensures data == Given(old(deliveries), max) && failed == Failing(old(deliveries), max)
      ensures deliveries == Left(old(deliveries), max)
    {
      if deliveries == [] {
        return [], true;
      }
      var next := deliveries[0];
      if |next.bytes| <= max {
        data, failed, deliveries := next.bytes, next.fails, deliveries[1..];
      } else {
        data, failed := next.bytes[..max], false;
        deliveries := [next.(bytes := next.bytes[max..])] + deliveries[1..];
      }
    }
  }

  datatype Outcome<+T> = Success(value: T) | Failure(error: ReadError)

  predicate Agrees<T(==)>(t: Taking<T>, res: Outcome<T>, after: Source) {
    match t
    case Took(value, s) => res == Success(value) && after == s
    case Lost(error, s) => res == Failure(error) && after == s
  }

  class Reader {
    const conn: Connection
    var buf: Bytes
    var pos: nat
    ghost var cut: bool

    constructor (conn: Connection)
      ensures this.conn == conn && State() == Source([], 0, conn.deliveries, false)
    {
      this.conn, buf, pos, cut := conn, [], 0, false;
    }

    ghost function State(): Source
      reads this, conn
    {
      Source(buf, pos, conn.deliveries, cut)
    }

    /** `Read`, into a buffer of `n` bytes. */
    method Read(n: nat) returns (res: Outcome<Bytes>)
      modifies this, conn
      ensures Agrees(Take(old(State()), n), res, State())
    {
      if |buf| < pos + n {
        var rdbuf, failed := conn.Read(REFILL);
        if failed {
          return Failure(EndOfInput);
        }
        buf := buf + rdbuf;
      }
      if pos > |buf| {
        // The slice of the buffer is out of range.
        return Failure(Panic);
      }
      var there := buf[pos..];
      res := Success(if n <= |there| then there[..n] else there + seq(n - |there|, _ => 0));
      cut := cut || |buf| < pos + n;
      pos := pos + n;
    }

    /** `readVarInt`: the groups do not overlap, so adding them is or-ing them. */
    method ReadVarInt() returns (res: Outcome<nat>)
      modifies this, conn
      ensures Agrees(TakeVarInt(old(State()), 0), res, State())
    {
      hide Take, TakeVarInt, Pow128, Continues, WithGroup;
      var result: nat, k: nat, weight: nat := 0, 0, 1;
      ghost var whole := TakeVarInt(State(), 0);
      FirstGroup(whole);
      while true
        invariant k < MAX_GROUPS && weight == Pow128(k) && result < weight
        invariant Continues(whole, result, weight, TakeVarInt(State(), k))
        decreases MAX_GROUPS - k
      {
        hide Take, TakeVarInt, Pow128, Continues, WithGroup;
        NextGroup(whole, result, weight, State(), k);
        TakeLength(State(), 1);
        var b := Read(1);
        if b.Failure? {
          return Failure(b.error);
        }
        result := WithGroup(result, b.value[0], weight);
        if b.value[0] < 128 {
          break;
        }
        if k + 1 == MAX_GROUPS {
          return Failure(TooLongVarInt);
        }
        weight, k := 128 * weight, k + 1;
      }
      res := Success(result);
    }

    method ReadAddress() returns (res: Outcome<Bytes>)
      modifies this, conn
      ensures Agrees(TakeAddress(old(State())), res, State())
    {
      hide Take, TakeVarInt;
      var addrLen := ReadVarInt();
      if addrLen.Failure? {
        return Failure(addrLen.error);
      }
      if addrLen.value > MAX_ADDRESS {
        return Failure(AddressTooLong);
      }
      res := Read(addrLen.value);
    }

    method ReadShort() returns (res: Outcome<nat>)
      modifies this, conn
      ensures Agrees(TakeShort(old(State())), res, State())
    {
      hide Take;
      var bytes := Read(2);
      if bytes.Failure? {
        return Failure(bytes.error);
      }
      res := Success(FromBigEndian(bytes.value));
    }

    method ReadHandshake() returns (res: Outcome<Packet>)
      modifies this, conn
      ensures Agrees(TakeHandshake(old(State())), res, State())
    {
      hide TakeVarInt, TakeAddress, TakeShort;
      var length := ReadVarInt();
      if length.Failure? {
        return Failure(length.error);
      }
      var packetID := ReadVarInt();
      if packetID.Failure? {
        return Failure(packetID.error);
      }
      var version := ReadVarInt();
      if version.Failure? {
        return Failure(version.error);
      }
      var serverAddr := ReadAddress();
      if serverAddr.Failure? {
        return Failure(serverAddr.error);
      }
      var serverPort := ReadShort();
      if serverPort.Failure? {
        return Failure(serverPort.error);
      }
      var nextState := ReadVarInt();
      if nextState.Failure? {
        return Failure(nextState.error);
      }
      res := Success(Packet(length.value, packetID.value, version.value, serverAddr.value, serverPort.value, nextState.value));
    }
  }

  // ---- one more group ----

  function WithGroup(result: nat, b: byte, weight: nat): nat { result + b % 128 * weight }

  /** Having read groups worth `result`, reading on gives `whole`. */
  predicate Continues(whole: Taking<nat>, result: nat, weight: nat, now: Taking<nat>) {
    whole == if now.Took? then Took(result + now.value * weight, now.after) else now
  }

  lemma FirstGroup(whole: Taking<nat>)
    ensures Pow128(0) == 1 && Continues(whole, 0, 1, whole)
  {
  }

  lemma NextGroup(whole: Taking<nat>, result: nat, weight: nat, r: Source, k: nat)
    requires k < MAX_GROUPS && weight == Pow128(k) && result < weight
    requires Continues(whole, result, weight, TakeVarInt(r, k))
    ensures 128 * weight == Pow128(k + 1)
    ensures var b := Take(r, 1);
      if b.Lost? then whole == Lost(b.error, b.after)
      else
        |b.value| == 1 &&
        var sum := WithGroup(result, b.value[0], weight);
        && sum < 128 * weight
        && if b.value[0] < 128 then whole == Took(sum, b.after)
           else if k + 1 == MAX_GROUPS then whole == Lost(TooLongVarInt, b.after)
           else Continues(whole, sum, 128 * weight, TakeVarInt(b.after, k + 1))
  {
    TakeLength(r, 1);
    hide Take;
    var b := Take(r, 1);
    if b.Took? {
      GroupBound(result, b.value[0] % 128, weight);
      if b.value[0] >= 128 && k + 1 < MAX_GROUPS {
        var more := TakeVarInt(b.after, k + 1);
        if more.Took? {
          assert b.value[0] % 128 == b.value[0] - 128;
          GroupSum(result, b.value[0] - 128, more.value, weight);
        }
      }
    }
  }

  lemma GroupBound(result: nat, low: nat, weight: nat)
    requires result < weight && low < 128
    ensures result + low * weight < 128 * weight
  {
    assert low * weight <= 127 * weight;
  }

  lemma GroupSum(result: nat, low: nat, more: nat, weight: nat)
    ensures result + (low + 128 * more) * weight == result + low * weight + more * (128 * weight)
  {
  }

  // ---- forwarding ----

  /** The connection to the game server; once a write fails, so do all later ones. */
  class Upstream {
    var received: Bytes
    var broken: bool

    constructor ()
      ensures received == [] && !broken
    {
      received, broken := [], false;
    }

    method Write(data: Bytes)
      modifies this
      ensures old(received) <= received <= old(received) + data
      ensures old(broken) ==> broken && received == old(received)
      ensures !broken ==> received == old(received) + data
    {
      var fails: bool := *;
      if broken {
        return;
      }
      if fails {
        var sent :| 0 <= sent <= |data|;
        received, broken := received + data[..sent], true;
        assert received <= old(received) + data;
      } else {
        received := received + data;
      }
    }
  }

  const COPY_BUFFER := 32768

  /** `io.Copy`: until reading or writing fails; what comes with a read error is still written. */
  method Copy(upstrm: Upstream, conn: Connection, ghost sent: Bytes)
    requires upstrm.received <= sent && (!upstrm.broken ==> upstrm.received == sent)
    modifies upstrm, conn
    ensures upstrm.received <= sent + Stream(old(conn.deliveries))
    ensures !upstrm.broken ==> upstrm.received + Stream(conn.deliveries) == sent + Stream(old(conn.deliveries))
    ensures !upstrm.broken && NeverFails(old(conn.deliveries)) ==> conn.deliveries == []
  {
    hide Stream, Given, Left, Failing, NeverFails;
    ghost var all, ds := sent + Stream(conn.deliveries), conn.deliveries;
    ghost var now := sent;
    var ended := false;
    while !upstrm.broken && !ended
      invariant now + Stream(conn.deliveries) == all && upstrm.received <= now
      invariant !upstrm.broken ==> upstrm.received == now
      invariant NeverFails(ds) ==> NeverFails(conn.deliveries) && (ended ==> conn.deliveries == [])
      decreases !ended, |conn.deliveries| + |Stream(conn.deliveries)|
    {
      hide Stream, Given, Left, Failing, NeverFails;
      OneRead(conn.deliveries, now);
      var data, failed := conn.Read(COPY_BUFFER);
      upstrm.Write(data);
      now := now + data;
      ended := failed;
    }
    assert now <= all;
  }

  lemma OneRead(ds: seq<Delivery>, now: Bytes)
    ensures now + Given(ds, COPY_BUFFER) + Stream(Left(ds, COPY_BUFFER)) == now + Stream(ds)
    ensures NeverFails(ds) ==> NeverFails(Left(ds, COPY_BUFFER))
    ensures NeverFails(ds) && Failing(ds, COPY_BUFFER) ==> ds == [] && Left(ds, COPY_BUFFER) == []
    ensures !Failing(ds, COPY_BUFFER) ==>
      |Left(ds, COPY_BUFFER)| + |Stream(Left(ds, COPY_BUFFER))| < |ds| + |Stream(ds)|
  {
    NothingIsLost(ds, COPY_BUFFER);
    Regroup(now, Given(ds, COPY_BUFFER), Stream(Left(ds, COPY_BUFFER)));
    if NeverFails(ds) {
      LeftNeverFails(ds, COPY_BUFFER);
    }
    hide Stream, NeverFails;
  }

  /**
   The forwarding part of `handleConn`: the bytes buffered during the handshake first, then the
   rest. Under any chunking, and even if a field was cut short, what the server receives is at every
   moment a prefix of what the client sent, and all of it that has been read, unless the connection
   to the server broke.
   */
  method Forward(conn: Connection, upstrm: Upstream) returns (hs: Outcome<Packet>)
    requires upstrm.received == [] && !upstrm.broken
    modifies conn, upstrm
    ensures hs.Success? <==> TakeHandshake(Source([], 0, old(conn.deliveries), false)).Took?
    ensures hs.Success? ==> hs.value == TakeHandshake(Source([], 0, old(conn.deliveries), false)).value
    ensures hs.Failure? ==> upstrm.received == []
    ensures hs.Success? ==> upstrm.received <= Stream(old(conn.deliveries))
    ensures hs.Success? && !upstrm.broken ==> upstrm.received + Stream(conn.deliveries) == Stream(old(conn.deliveries))
    ensures hs.Success? && !upstrm.broken && NeverFails(old(conn.deliveries)) ==> upstrm.received == Stream(old(conn.deliveries))
  {
    var r := new Reader(conn);
    ghost var start := r.State();
    hide TakeHandshake;
    HandshakeKeeps(start);
    assert Everything(start) == Stream(conn.deliveries);
    hs := r.ReadHandshake();
    if hs.Success? {
      upstrm.Write(r.buf);
      Copy(upstrm, conn, r.buf);
      assert NeverFails(old(conn.deliveries)) && !upstrm.broken ==> upstrm.received + [] == upstrm.received;
    }
  }
}
