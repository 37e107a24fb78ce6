/** Packets on an RPC connection: header lines, an empty line, and a body of the announced length. */
module Framing {
  import opened Options

  // ---- decimal numbers ----

  function Itoa(n: nat): (s: string)
    ensures s != "" && forall i | 0 <= i < |s| :: IsDigit(s[i])
  {
    if n < 10 then ['0' + n as char] else Itoa(n / 10) + ['0' + (n % 10) as char]
  }

  function Digit(c: char): nat
    requires IsDigit(c)
  {
    c as int - '0' as int
  }

  predicate IsDigit(c: char) { '0' <= c <= '9' }

  function DigitsValue(s: string): nat
    requires forall i | 0 <= i < |s| :: IsDigit(s[i])
  {
    if s == "" then 0 else 10 * DigitsValue(s[..|s| - 1]) + Digit(s[|s| - 1])
  }

  const INT_LIMIT := 0x8000_0000_0000_0000

  /** `strconv.Atoi`: an optional sign and digits, within a 64-bit integer. */
  function Atoi(s: string): Option<int> {
    var signed := s != "" && (s[0] == '-' || s[0] == '+');
    var digits := if signed then s[1..] else s;
    if digits == "" || exists i | 0 <= i < |digits| :: !IsDigit(digits[i]) then None
    else
      var n := DigitsValue(digits);
      if signed && s[0] == '-' then if n <= INT_LIMIT then Some(0 - n) else None
      else if n < INT_LIMIT then Some(n)
      else None
  }

  /** A written length is read back exactly if it is below 2^63. */
  lemma {:induction false} AtoiUndoesItoa(n: nat)
    ensures Atoi(Itoa(n)) == if n < 0x8000_0000_0000_0000 then Some(n) else None
  {
    DigitsOfItoa(n);
    assert IsDigit(Itoa(n)[0]);
  }

  /** The digits are decimal, the highest first. */
  lemma DecimalLayout()
    ensures Itoa(7) == "7" && Itoa(1024) == "1024"
  {
    assert Itoa(1) == "1" && Itoa(10) == "10" && Itoa(102) == "102";
  }

  lemma {:induction false} DigitsOfItoa(n: nat)
    ensures DigitsValue(Itoa(n)) == n
  {
    if n >= 10 {
      DigitsOfItoa(n / 10);
      var s := Itoa(n);
      assert s[..|s| - 1] == Itoa(n / 10);
    } else {
      assert Itoa(n)[..0] == "";
    }
  }

  lemma {:induction false} ItoaIsShort(n: nat, digits: nat)
    requires digits > 0 && n < Pow10(digits)
    ensures |Itoa(n)| <= digits
    decreases digits
  {
    if n >= 10 {
      ItoaIsShort(n / 10, digits - 1);
    }
  }

  function Pow10(n: nat): nat { if n == 0 then 1 else 10 * Pow10(n - 1) }

  // ---- lines ----

  const LINE_BUFFER := 4096

  function IndexOf(s: string, c: char): (i: nat)
    ensures i <= |s| && c !in s[..i]
    ensures i < |s| ==> s[i] == c
  {
    if s == "" || s[0] == c then 0
    else
      var i := IndexOf(s[1..], c);
      assert s[..i + 1] == [s[0]] + s[1..][..i];
      i + 1
  }

  /**
   `ReadLine`: up to a newline, which is dropped together with a carriage return before it. A line
   that fills the buffer comes in pieces, and the last line may lack its newline.
   */
  function ReadLine(s: string): (r: Option<(string, string)>)
    ensures r.Some? ==> |r.value.1| < |s|
    ensures r.None? <==> s == ""
  {
    var i := IndexOf(s, '\n');
    if i < |s| && i < LINE_BUFFER then
      Some((if i > 0 && s[i - 1] == '\r' then s[..i - 1] else s[..i], s[i + 1..]))
    else if |s| >= LINE_BUFFER then
      var n := if s[LINE_BUFFER - 1] == '\r' then LINE_BUFFER - 1 else LINE_BUFFER;
      Some((s[..n], s[n..]))
    else if s != "" then Some((s, ""))
    else None
  }

  lemma {:induction false} IndexOfAfter(a: string, c: char, b: string)
    requires c !in a
    ensures IndexOf(a + [c] + b, c) == |a|
  {
    if a == "" {
      assert a + [c] + b == [c] + b;
    } else {
      assert (a + [c] + b)[1..] == a[1..] + [c] + b;
      IndexOfAfter(a[1..], c, b);
    }
  }

  /** A line written with "\r\n" that fits the buffer is read back whole. */
  lemma LineRoundTrip(line: string, tail: string)
    requires '\n' !in line && |line| + 1 < LINE_BUFFER
    ensures ReadLine(line + "\r\n" + tail) == Some((line, tail))
  {
    var s := line + "\r\n" + tail;
    assert s == line + "\r" + ['\n'] + tail;
    IndexOfAfter(line + "\r", '\n', tail);
    assert s[..|line|] == line && s[|line| + 2..] == tail;
  }

  /** A line ends at the first newline, if that is among the first 4096 bytes. */
  lemma LineEndsAtNewline(s: string, i: nat)
    requires i < |s| && i < 4096 && s[i] == '\n' && forall j | 0 <= j < i :: s[j] != '\n'
    ensures ReadLine(s) == Some((if i > 0 && s[i - 1] == '\r' then s[..i - 1] else s[..i], s[i + 1..]))
  {
    assert IndexOf(s, '\n') == i;
  }

  /** A longer line is taken for several. */
  lemma LongLineIsCut(s: string)
    requires |s| >= 4096 && forall j | 0 <= j < 4096 :: s[j] != '\n'
    ensures ReadLine(s) == Some(if s[4095] == '\r' then (s[..4095], s[4095..]) else (s[..4096], s[4096..]))
  {
    var i := IndexOf(s, '\n');
    assert i < |s| ==> s[i] == '\n';
  }

  // ---- headers ----

  /** The part before the first ": " and the part after it. */
  function SplitHeader(line: string): (r: Option<(string, string)>)
    ensures r.Some? ==> line == r.value.0 + ": " + r.value.1
  {
    if |line| < 2 then None
    else if line[..2] == ": " then Some(("", line[2..]))
    else
      var r := SplitHeader(line[1..]);
      if r.None? then None
      else
        assert line == [line[0]] + line[1..];
        Some(([line[0]] + r.value.0, r.value.1))
  }

  lemma {:induction false} HeaderRoundTrip(name: string, value: string)
    requires ':' !in name
    ensures SplitHeader(name + ": " + value) == Some((name, value))
  {
    var line := name + ": " + value;
    if name == "" {
      assert line[..2] == ": " && line[2..] == value;
    } else {
      assert line[0] == name[0] && line[..2][0] == name[0] && name == [name[0]] + name[1..];
      assert line[1..] == name[1..] + ": " + value;
      HeaderRoundTrip(name[1..], value);
    }
  }

  function Lower(c: char): char { if 'A' <= c <= 'Z' then (c as int + 32) as char else c }

  /** `strings.EqualFold` for names of plain letters. */
  predicate EqualFold(a: string, b: string) {
    |a| == |b| && forall i | 0 <= i < |a| :: Lower(a[i]) == Lower(b[i])
  }

  /** Letters are the same whatever their case, and nothing else is. */
  lemma EqualFoldIsByLetter(a: string, b: string)
    ensures EqualFold(a, b) <==>
      |a| == |b| && forall i | 0 <= i < |a| ::
        || a[i] == b[i]
        || ('A' <= a[i] <= 'Z' && b[i] as int == a[i] as int + 32)
        || ('A' <= b[i] <= 'Z' && a[i] as int == b[i] as int + 32)
  {
  }

  // ---- packets ----

  datatype Packet = Packet(contentLength: int, traceparent: string, body: string)

  function WritePacket(body: string, traceparent: string): string {
    HeaderLine("Content-Length", Itoa(|body|)) + (TraceLine(traceparent) + ("\r\n" + body))
  }

  function HeaderLine(name: string, value: string): string { name + ": " + value + "\r\n" }

  function TraceLine(traceparent: string): string {
    if traceparent == "" then "" else HeaderLine("Traceparent", traceparent)
  }

  /** What is on the wire. */
  lemma PacketLayout(body: string, traceparent: string)
    ensures WritePacket(body, traceparent) ==
      "Content-Length: " + Itoa(|body|) + "\r\n" +
      (if traceparent == "" then "" else "Traceparent: " + traceparent + "\r\n") + "\r\n" + body
  {
    HeaderLayout(traceparent, Itoa(|body|));
    hide HeaderLine;
    var first, trace := "Content-Length: " + Itoa(|body|) + "\r\n", TraceLine(traceparent);
    hide TraceLine, Itoa;
    Regroup(first + trace, "\r\n", body);
    Regroup(first, trace, "\r\n" + body);
  }

  lemma HeaderLayout(traceparent: string, length: string)
    ensures HeaderLine("Content-Length", length) == "Content-Length: " + length + "\r\n"
    ensures HeaderLine("Traceparent", traceparent) == "Traceparent: " + traceparent + "\r\n"
  {
    assert "Content-Length" + ": " == "Content-Length: ";
    assert "Traceparent" + ": " == "Traceparent: ";
  }

  /** The header loop, from the packet as filled in so far: None is an error. */
  function ReadHeaders(s: string, p: Packet): (r: Option<(Packet, string)>)
    ensures r.Some? ==> |r.value.1| < |s|
    decreases |s|
  {
    var line := ReadLine(s);
    if line.None? then None
    else
      var (l, rest) := line.value;
      if l == "" then Some((p, rest))
      else
        var f := SplitHeader(l);
        if f.None? then None
        else if EqualFold(f.value.0, "content-length") then
          var n := Atoi(f.value.1);
          if n.None? then None else ReadHeaders(rest, p.(contentLength := n.value))
        else if EqualFold(f.value.0, "traceparent") then ReadHeaders(rest, p.(traceparent := f.value.1))
        else ReadHeaders(rest, p)
  }

  /** `readPacket`, given which texts are JSON: the packet and what follows it. */
  function ReadPacket(s: string, isJSON: string -> bool): Option<(Packet, string)> {
    var headers := ReadHeaders(s, Packet(-1, "", ""));
    if headers.None? then None
    else
      var (p, rest) := headers.value;
      if p.contentLength < 0 || |rest| < p.contentLength || !isJSON(rest[..p.contentLength]) then None
      else Some((p.(body := rest[..p.contentLength]), rest[p.contentLength..]))
  }

  /** `readPacket`'s loop. */
  method ReceivePacket(input: string, isJSON: string -> bool) returns (packet: Option<Packet>, rest: string)
    ensures packet.Some? <==> ReadPacket(input, isJSON).Some?
    ensures packet.Some? ==> ReadPacket(input, isJSON) == Some((packet.value, rest))
  {
    var p := Packet(-1, "", "");
    rest := input;
    while true
      invariant ReadHeaders(input, Packet(-1, "", "")) == ReadHeaders(rest, p)
      decreases |rest|
    {
      var line := ReadLine(rest);
      if line.None? {
        return None, rest;
      }
      var l := line.value.0;
      if l == "" {
        rest := line.value.1;
        break;
      }
      var f := SplitHeader(l);
      if f.None? {
        return None, rest;
      }
      if EqualFold(f.value.0, "content-length") {
        var n := Atoi(f.value.1);
        if n.None? {
          return None, rest;
        }
        p := p.(contentLength := n.value);
      } else if EqualFold(f.value.0, "traceparent") {
        p := p.(traceparent := f.value.1);
      }
      rest := line.value.1;
    }
    if p.contentLength < 0 || |rest| < p.contentLength || !isJSON(rest[..p.contentLength]) {
      return None, rest;
    }
    packet, rest := Some(p.(body := rest[..p.contentLength])), rest[p.contentLength..];
  }

  // ---- reading undoes writing ----

  lemma EndOfHeaders(tail: string, p: Packet)
    ensures ReadHeaders("\r\n" + tail, p) == Some((p, tail))
  {
    LineRoundTrip("", tail);
    assert "" + "\r\n" + tail == "\r\n" + tail;
  }

  lemma HeaderNames()
    ensures EqualFold("Content-Length", "content-length")
    ensures !EqualFold("Traceparent", "content-length") && EqualFold("Traceparent", "traceparent")
    ensures ':' !in "Content-Length" && '\n' !in "Content-Length" && ':' !in "Traceparent" && '\n' !in "Traceparent"
  {
  }

  lemma OneHeader(name: string, value: string, tail: string, p: Packet)
    requires name != "" && ':' !in name && '\n' !in name && '\n' !in value && |name| + 2 + |value| + 1 < LINE_BUFFER
    ensures ReadHeaders(HeaderLine(name, value) + tail, p) ==
      if EqualFold(name, "content-length") then
        if Atoi(value).None? then None else ReadHeaders(tail, p.(contentLength := Atoi(value).value))
      else if EqualFold(name, "traceparent") then ReadHeaders(tail, p.(traceparent := value))
      else ReadHeaders(tail, p)
  {
    LineRoundTrip(name + ": " + value, tail);
    HeaderRoundTrip(name, value);
  }

  lemma Regroup(a: string, b: string, c: string)
    ensures a + b + c == a + (b + c)
  {
  }

  lemma Flatten(body: string, traceparent: string, tail: string)
    ensures WritePacket(body, traceparent) + tail ==
      HeaderLine("Content-Length", Itoa(|body|)) + (TraceLine(traceparent) + ("\r\n" + (body + tail)))
  {
    var trace := TraceLine(traceparent);
    Regroup("\r\n", body, tail);
    Regroup(trace, "\r\n" + body, tail);
    Regroup(HeaderLine("Content-Length", Itoa(|body|)), trace + ("\r\n" + body), tail);
  }

  lemma Headers(body: string, traceparent: string, tail: string)
    requires |body| < INT_LIMIT && '\n' !in traceparent && |traceparent| + 14 < LINE_BUFFER
    ensures ReadHeaders(WritePacket(body, traceparent) + tail, Packet(-1, "", "")) ==
      Some((Packet(|body|, traceparent, ""), body + tail))
  {
    Flatten(body, traceparent, tail);
    AtoiUndoesItoa(|body|);
    LengthLineIsShort(|body|);
    HeaderNames();
    assert '\n' !in Itoa(|body|);
    hide ReadLine, Itoa, Atoi, WritePacket, HeaderLine, EqualFold, ReadHeaders;
    var p, end := Packet(-1, "", ""), "\r\n" + (body + tail);
    OneHeader("Content-Length", Itoa(|body|), TraceLine(traceparent) + end, p);
    EndOfHeaders(body + tail, Packet(|body|, traceparent, ""));
    if traceparent == "" {
      assert "" + end == end;
    } else {
      OneHeader("Traceparent", traceparent, end, p.(contentLength := |body|));
    }
  }

  lemma LengthLineIsShort(n: nat)
    requires n < INT_LIMIT
    ensures |Itoa(n)| <= 20
  {
    assert Pow10(2) == 100;
    assert Pow10(4) == 10000;
    assert Pow10(6) == 1000000;
    assert Pow10(8) == 100000000;
    assert Pow10(10) == 10000000000;
    assert Pow10(12) == 1000000000000;
    assert Pow10(14) == 100000000000000;
    assert Pow10(16) == 10000000000000000;
    assert Pow10(18) == 1000000000000000000;
    assert Pow10(20) == 100000000000000000000;
    ItoaIsShort(n, 20);
  }

  /** A packet must announce its length. */
  lemma LengthIsRequired(tail: string, isJSON: string -> bool)
    ensures ReadPacket("\r\n" + tail, isJSON) == None
  {
    EndOfHeaders(tail, Packet(-1, "", ""));
  }

  /**
   Whatever follows a written packet, reading gives back its body and its traceparent. What follows is
   left in the buffered reader, which lives as long as the call.
   */
  lemma ReadUndoesWrite(body: string, traceparent: string, tail: string, isJSON: string -> bool)
    requires |body| < 0x8000_0000_0000_0000 && '\n' !in traceparent && |traceparent| < 4082 && isJSON(body)
    ensures ReadPacket(WritePacket(body, traceparent) + tail, isJSON) ==
      Some((Packet(|body|, traceparent, body), tail))
  {
    Headers(body, traceparent, tail);
    assert (body + tail)[..|body|] == body && (body + tail)[|body|..] == tail;
  }
}
