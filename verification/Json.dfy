/** JSON texts as `json.Marshal` writes them: section 7 of RFC 8259, with the escapes Go chooses. */
module Json {
  import Framing

  datatype Value =
    | Null
    | Bool(b: bool)
    | Number(n: int)
    | String(s: string)
    | Array(items: seq<Value>)
    | Object(members: seq<Member>)

  datatype Member = Member(name: string, value: Value)

  function HexDigit(n: nat): char
    requires n < 16
  {
    if n < 10 then '0' + n as char else 'a' + (n - 10) as char
  }

  /** The `u` escape of a character below 256. */
  function UnicodeEscape(c: char): string
    requires c < 256 as char
  {
    var n := c as int;
    ['\\', 'u', '0', '0', HexDigit(n / 16), HexDigit(n % 16)]
  }

  function Escape(c: char): string {
    if c == '"' then "\\\"" else if c == '\\' then "\\\\"
    else if c == 8 as char then "\\b" else if c == 12 as char then "\\f"
    else if c == '\n' then "\\n" else if c == '\r' then "\\r" else if c == '\t' then "\\t"
    else if c < ' ' || c == '<' || c == '>' || c == '&' then UnicodeEscape(c)
    else if c == 0x2028 as char then "\\u2028" else if c == 0x2029 as char then "\\u2029"
    else [c]
  }

  function EscapeAll(s: string): string {
    if s == "" then "" else Escape(s[0]) + EscapeAll(s[1..])
  }

  function Quote(s: string): string { "\"" + EscapeAll(s) + "\"" }

  function WriteNumber(n: int): string {
    if n < 0 then "-" + Framing.Itoa(-n) else Framing.Itoa(n)
  }

  function Write(v: Value): string
    decreases v, 0
  {
    match v
    case Null => "null"
    case Bool(b) => if b then "true" else "false"
    case Number(n) => WriteNumber(n)
    case String(s) => Quote(s)
    case Array(items) => "[" + WriteItems(items) + "]"
    case Object(members) => "{" + WriteMembers(members) + "}"
  }

  function WriteItems(items: seq<Value>): string
    decreases items, 0
  {
    if items == [] then ""
    else Write(items[0]) + (if |items| == 1 then "" else "," + WriteItems(items[1..]))
  }

  function WriteMembers(members: seq<Member>): string
    decreases members, 0
  {
    if members == [] then ""
    else
      Quote(members[0].name) + ":" + Write(members[0].value) +
        (if |members| == 1 then "" else "," + WriteMembers(members[1..]))
  }

  /** A text for each kind of value. */
  lemma TextLayout(a: Value, b: Value, name: string, other: string)
    ensures Write(Null) == "null" && Write(Bool(true)) == "true" && Write(Bool(false)) == "false"
    ensures Write(Number(12)) == "12" && Write(Number(-3)) == "-3"
    ensures Write(Array([])) == "[]" && Write(Object([])) == "{}"
    ensures Write(Array([a, b])) == "[" + (Write(a) + ("," + Write(b))) + "]"
    ensures Write(Object([Member(name, a), Member(other, b)])) ==
      "{" + (Quote(name) + ":" + Write(a) + ("," + (Quote(other) + ":" + Write(b)))) + "}"
  {
    NumbersAreDecimal();
    TwoItems(a, b);
    TwoMembers(Member(name, a), Member(other, b));
    hide Framing.Itoa, Quote;
  }

  lemma TwoItems(a: Value, b: Value)
    ensures WriteItems([a, b]) == Write(a) + ("," + Write(b))
  {
    hide Write;
    assert [a, b][1..] == [b];
    assert WriteItems([b]) == Write(b) + "" == Write(b);
  }

  lemma TwoMembers(a: Member, b: Member)
    ensures WriteMembers([a, b]) == Quote(a.name) + ":" + Write(a.value) + ("," + (Quote(b.name) + ":" + Write(b.value)))
  {
    hide Write, Quote;
    assert [a, b][1..] == [b];
    assert WriteMembers([b]) == Quote(b.name) + ":" + Write(b.value) + "" == Quote(b.name) + ":" + Write(b.value);
  }

  lemma NumbersAreDecimal()
    ensures Framing.Itoa(12) == "12" && Framing.Itoa(3) == "3"
  {
    assert Framing.Itoa(1) == "1" && Framing.Itoa(2) == "2";
  }

  /** Quotes are escaped, and so are control characters and what HTML could take for a tag. */
  lemma QuoteLayout()
    ensures Quote("a") == "\"a\"" && Quote("b") == "\"b\"" && Quote("a\"\n<") == "\"a\\\"\\n\\u003c\""
  {
    assert "a"[1..] == "" && "b"[1..] == "";
    assert "a\"\n<"[1..] == "\"\n<" && "\"\n<"[1..] == "\n<" && "\n<"[1..] == "<" && "<"[1..] == "";
    assert EscapeAll("<") == "\\u003c";
    assert EscapeAll("\n<") == "\\n\\u003c";
    assert EscapeAll("\"\n<") == "\\\"\\n\\u003c";
  }

  /** Quoting lengthens every string, so no string is its own JSON text. */
  lemma {:induction false} QuoteIsLonger(s: string)
    ensures |Quote(s)| >= |s| + 2
  {
    EscapeIsNoShorter(s);
  }

  lemma {:induction false} EscapeIsNoShorter(s: string)
    ensures |EscapeAll(s)| >= |s|
  {
    if s != "" {
      EscapeIsNoShorter(s[1..]);
      assert |Escape(s[0])| >= 1;
    }
  }

  // ---- no control character is ever written ----

  predicate NoControls(s: string) { forall i | 0 <= i < |s| :: s[i] >= ' ' }

  lemma {:induction false} EscapesControls(s: string)
    ensures NoControls(EscapeAll(s))
  {
    if s != "" {
      EscapesControls(s[1..]);
      EscapesControl(s[0]);
      hide Escape;
    }
  }

  lemma EscapesControl(c: char)
    ensures NoControls(Escape(c))
  {
    if c < 256 as char {
      UnicodeEscapesControl(c);
    }
    hide UnicodeEscape;
  }

  lemma UnicodeEscapesControl(c: char)
    requires c < 256 as char
    ensures NoControls(UnicodeEscape(c))
  {
  }

  lemma {:induction false} WritesNoControls(v: Value)
    ensures Write(v) != "" && NoControls(Write(v))
    decreases v, 0
  {
    hide Escape, EscapeAll;
    match v
    case Null =>
    case Bool(_) =>
    case Number(n) =>
    case String(s) => EscapesControls(s);
    case Array(items) => ItemsHaveNoControls(items);
    case Object(members) => MembersHaveNoControls(members);
  }

  lemma {:induction false} ItemsHaveNoControls(items: seq<Value>)
    ensures NoControls(WriteItems(items))
    decreases items, 0
  {
    if items != [] {
      WritesNoControls(items[0]);
      ItemsHaveNoControls(items[1..]);
    }
  }

  lemma {:induction false} MembersHaveNoControls(members: seq<Member>)
    ensures NoControls(WriteMembers(members))
    decreases members, 0
  {
    if members != [] {
      EscapesControls(members[0].name);
      WritesNoControls(members[0].value);
      MembersHaveNoControls(members[1..]);
    }
  }
}
