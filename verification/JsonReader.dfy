/**
 Reading JSON texts back: the part of `json.Unmarshal` that reads what `json.Marshal` writes. White
 space, fractions and exponents, and escapes of surrogates are errors here.
 */
module JsonReader {
  import opened Options
  import opened Json
  import Framing

  // ---- strings ----

  function HexValue(c: char): Option<nat> {
    if '0' <= c <= '9' then Some(c as int - '0' as int)
    else if 'a' <= c <= 'f' then Some(c as int - 'a' as int + 10)
    else if 'A' <= c <= 'F' then Some(c as int - 'A' as int + 10)
    else None
  }

  /** The character of four hexadecimal digits. */
  function HexChar(s: string): Option<char>
    requires |s| == 4
  {
    var a, b, c, d := HexValue(s[0]), HexValue(s[1]), HexValue(s[2]), HexValue(s[3]);
    if a.None? || b.None? || c.None? || d.None? then None
    else
      var n := 4096 * a.value + 256 * b.value + 16 * c.value + d.value;
      if n < 0xD800 || 0xE000 <= n < 0x1_0000 then Some(n as char) else None
  }

  /** The character that an escape stands for, and what follows it. */
  function ReadEscape(s: string): (r: Option<(char, string)>)
    ensures r.Some? ==> |r.value.1| < |s|
  {
    if s == "" then None
    else if s[0] == 'u' then
      if |s| < 5 then None
      else
        var c := HexChar(s[1..5]);
        if c.None? then None else Some((c.value, s[5..]))
    else
      var c := Unescaped(s[0]);
      if c.None? then None else Some((c.value, s[1..]))
  }

  function Unescaped(c: char): Option<char> {
    if c == '"' || c == '\\' || c == '/' then Some(c)
    else if c == 'b' then Some(8 as char) else if c == 'f' then Some(12 as char)
    else if c == 'n' then Some('\n') else if c == 'r' then Some('\r') else if c == 't' then Some('\t')
    else None
  }

  /** The string up to its closing quote. */
  function ReadString(s: string): (r: Option<(string, string)>)
    ensures r.Some? ==> |r.value.1| < |s|
    decreases |s|
  {
    if s == "" || s[0] < ' ' then None
    else if s[0] == '"' then Some(("", s[1..]))
    else
      var first := if s[0] == '\\' then ReadEscape(s[1..]) else Some((s[0], s[1..]));
      if first.None? then None
      else
        var more := ReadString(first.value.1);
        if more.None? then None else Some(([first.value.0] + more.value.0, more.value.1))
  }

  lemma HexOfDigit(n: nat)
    requires n < 16
    ensures HexValue(HexDigit(n)) == Some(n)
  {
  }

  lemma EscapedIsRead(c: char, rest: string)
    ensures Escape(c) != "" && Escape(c)[0] >= ' ' && Escape(c)[0] != '"'
    ensures if Escape(c)[0] == '\\' then ReadEscape((Escape(c) + rest)[1..]) == Some((c, rest)) else Escape(c) == [c]
  {
    if c < 256 as char && Escape(c) == UnicodeEscape(c) {
      UnicodeIsRead(c, rest);
    } else if c == 0x2028 as char || c == 0x2029 as char {
      SeparatorIsRead(c, rest);
    } else if |Escape(c)| == 2 {
      assert (Escape(c) + rest)[1..][1..] == rest;
    }
  }

  lemma UnicodeIsRead(c: char, rest: string)
    requires c < 256 as char
    ensures ReadEscape((UnicodeEscape(c) + rest)[1..]) == Some((c, rest))
  {
    var s := (UnicodeEscape(c) + rest)[1..];
    var n := c as int;
    HexOfDigit(n / 16);
    HexOfDigit(n % 16);
    hide HexDigit;
    assert s[1..5] == ['0', '0', HexDigit(n / 16), HexDigit(n % 16)];
    assert s[5..] == rest;
    assert 16 * (n / 16) + n % 16 == n;
  }

  lemma SeparatorIsRead(c: char, rest: string)
    requires c == 0x2028 as char || c == 0x2029 as char
    ensures ReadEscape((Escape(c) + rest)[1..]) == Some((c, rest))
  {
    var last := if c == 0x2028 as char then '8' else '9';
    assert Escape(c) == ['\\', 'u', '2', '0', '2', last];
    hide Escape;
    var s := ['u', '2', '0', '2', last] + rest;
    assert (Escape(c) + rest)[1..] == s;
    assert s[1..5] == ['2', '0', '2', last];
    assert s[5..] == rest;
  }

  lemma {:induction false} StringIsRead(text: string, rest: string)
    ensures ReadString(EscapeAll(text) + "\"" + rest) == Some((text, rest))
  {
    if text == "" {
      assert (EscapeAll(text) + "\"" + rest)[1..] == rest;
    } else {
      var more := EscapeAll(text[1..]) + "\"" + rest;
      StringIsRead(text[1..], rest);
      assert EscapeAll(text) + "\"" + rest == Escape(text[0]) + more;
      hide Escape, EscapeAll, ReadString;
      FirstIsRead(text[0], more);
      assert text == [text[0]] + text[1..];
    }
  }

  lemma FirstIsRead(c: char, more: string)
    requires ReadString(more).Some?
    ensures ReadString(Escape(c) + more) == Some(([c] + ReadString(more).value.0, ReadString(more).value.1))
  {
    EscapedIsRead(c, more);
    hide Escape, ReadEscape;
    if Escape(c)[0] != '\\' {
      assert ([c] + more)[1..] == more;
    }
  }

  // ---- numbers ----

  /** The digits a text begins with. */
  function Digits(s: string): (d: string)
    ensures d <= s && (forall i | 0 <= i < |d| :: Framing.IsDigit(d[i]))
    ensures |d| < |s| ==> !Framing.IsDigit(s[|d|])
  {
    if s == "" || !Framing.IsDigit(s[0]) then "" else [s[0]] + Digits(s[1..])
  }

  function ReadNumber(s: string): (r: Option<(int, string)>)
    ensures r.Some? ==> |r.value.1| < |s|
  {
    var minus := s != "" && s[0] == '-';
    var digits := Digits(if minus then s[1..] else s);
    if digits == "" then None
    else
      var n := Framing.DigitsValue(digits);
      if minus then Some((0 - n, s[1 + |digits|..])) else Some((n, s[|digits|..]))
  }

  /** What may follow a value: not another digit. */
  predicate Ends(rest: string) { rest == "" || !Framing.IsDigit(rest[0]) }

  lemma {:induction false} DigitsUpTo(d: string, rest: string)
    requires Ends(rest) && forall i | 0 <= i < |d| :: Framing.IsDigit(d[i])
    ensures Digits(d + rest) == d
  {
    if d == "" {
      assert d + rest == rest;
    } else {
      assert (d + rest)[1..] == d[1..] + rest;
      DigitsUpTo(d[1..], rest);
    }
  }

  lemma NumberIsRead(n: int, rest: string)
    requires Ends(rest)
    ensures ReadNumber(WriteNumber(n) + rest) == Some((n, rest))
    ensures WriteNumber(n) != "" && (WriteNumber(n)[0] == '-' || Framing.IsDigit(WriteNumber(n)[0]))
  {
    hide Digits, Framing.DigitsValue, Framing.Itoa;
    var m: nat := if n < 0 then 0 - n else n;
    var d := Framing.Itoa(m);
    DigitsUpTo(d, rest);
    Framing.DigitsOfItoa(m);
    if n < 0 {
      NegativeIsRead(d, rest);
    } else {
      assert (d + rest)[|d|..] == rest;
    }
  }

  lemma NegativeIsRead(d: string, rest: string)
    requires d != "" && (forall i | 0 <= i < |d| :: Framing.IsDigit(d[i])) && Digits(d + rest) == d
    ensures ReadNumber("-" + d + rest) == Some((0 - Framing.DigitsValue(d), rest))
  {
    hide Digits, Framing.DigitsValue;
    var s := "-" + d + rest;
    assert s[1..] == d + rest;
    assert s[1 + |d|..] == rest;
  }

  // ---- values ----

  /** `rest` if `s` is `word` and then `rest`. */
  function After(s: string, word: string): Option<string> {
    if word <= s then Some(s[|word|..]) else None
  }

  function Read(s: string): (r: Option<(Value, string)>)
    ensures r.Some? ==> |r.value.1| < |s|
    decreases |s|, 1
  {
    if s == "" then None
    else if s[0] == 'n' then ReadWord(s, "null", Null)
    else if s[0] == 't' then ReadWord(s, "true", Bool(true))
    else if s[0] == 'f' then ReadWord(s, "false", Bool(false))
    else if s[0] == '"' then
      var text := ReadString(s[1..]);
      if text.None? then None else Some((String(text.value.0), text.value.1))
    else if s[0] == '[' then
      if |s| > 1 && s[1] == ']' then Some((Array([]), s[2..]))
      else
        var items := ReadItems(s[1..]);
        if items.None? then None else Some((Array(items.value.0), items.value.1))
    else if s[0] == '{' then
      if |s| > 1 && s[1] == '}' then Some((Object([]), s[2..]))
      else
        var members := ReadMembers(s[1..]);
        if members.None? then None else Some((Object(members.value.0), members.value.1))
    else
      var number := ReadNumber(s);
      if number.None? then None else Some((Number(number.value.0), number.value.1))
  }

  function ReadWord(s: string, word: string, v: Value): (r: Option<(Value, string)>)
    requires word != ""
    ensures r.Some? ==> |r.value.1| < |s|
  {
    if word <= s then Some((v, s[|word|..])) else None
  }

  /** The items of an array, up to its closing bracket. */
  function ReadItems(s: string): (r: Option<(seq<Value>, string)>)
    ensures r.Some? ==> |r.value.1| < |s|
    decreases |s|, 2
  {
    var item := Read(s);
    if item.None? || item.value.1 == "" then None
    else
      var rest := item.value.1;
      if rest[0] == ']' then Some(([item.value.0], rest[1..]))
      else if rest[0] != ',' then None
      else
        var more := ReadItems(rest[1..]);
        if more.None? then None else Some(([item.value.0] + more.value.0, more.value.1))
  }

  /** The members of an object, up to its closing brace. */
  function ReadMembers(s: string): (r: Option<(seq<Member>, string)>)
    ensures r.Some? ==> |r.value.1| < |s|
    decreases |s|, 1
  {
    var member := ReadMember(s);
    if member.None? || member.value.1 == "" then None
    else
      var rest := member.value.1;
      if rest[0] == '}' then Some(([member.value.0], rest[1..]))
      else if rest[0] != ',' then None
      else
        var more := ReadMembers(rest[1..]);
        if more.None? then None else Some(([member.value.0] + more.value.0, more.value.1))
  }

  function ReadMember(s: string): (r: Option<(Member, string)>)
    ensures r.Some? ==> |r.value.1| < |s|
    decreases |s|, 0
  {
    if s == "" || s[0] != '"' then None
    else
      var name := ReadString(s[1..]);
      if name.None? || name.value.1 == "" || name.value.1[0] != ':' then None
      else
        var v := Read(name.value.1[1..]);
        if v.None? then None else Some((Member(name.value.0, v.value.0), v.value.1))
  }

  // ---- reading undoes writing ----

  lemma Regroup(a: string, b: string, c: string)
    ensures a + b + c == a + (b + c)
  {
  }

  lemma QuotedIsRead(text: string, rest: string)
    ensures Quote(text) + rest != "" && (Quote(text) + rest)[0] == '"'
    ensures ReadString((Quote(text) + rest)[1..]) == Some((text, rest))
  {
    StringIsRead(text, rest);
    assert (Quote(text) + rest)[1..] == EscapeAll(text) + "\"" + rest;
  }

  lemma WordIsRead(word: string, v: Value, rest: string)
    requires word != ""
    ensures ReadWord(word + rest, word, v) == Some((v, rest))
  {
    assert (word + rest)[|word|..] == rest;
  }

  /** Reading a text that was written gives the value back and stops where it ends. */
  lemma {:induction false} ReadUndoesWrite(v: Value, rest: string)
    requires Ends(rest)
    ensures Read(Write(v) + rest) == Some((v, rest))
    decreases v, 0
  {
    hide Quote, EscapeAll, WriteNumber, ReadNumber, ReadString;
    match v
    case Null => WordIsRead("null", v, rest);
    case Bool(b) => WordIsRead(if b then "true" else "false", v, rest);
    case Number(n) => NumberIsRead(n, rest);
    case String(text) => QuotedIsRead(text, rest);
    case Array(items) => ArrayIsRead(items, rest);
    case Object(members) => ObjectIsRead(members, rest);
  }

  lemma StartOfValue(v: Value)
    ensures Write(v) != "" && Write(v)[0] != ']'
  {
    if v.Number? {
      NumberIsRead(v.n, "");
    }
    hide WriteNumber, EscapeAll, WriteItems, WriteMembers;
  }

  lemma {:induction false} ArrayIsRead(items: seq<Value>, rest: string)
    ensures Read(Write(Array(items)) + rest) == Some((Array(items), rest))
    decreases items, 1
  {
    var s := Write(Array(items)) + rest;
    if items == [] {
      assert s == "[]" + rest && s[2..] == rest;
    } else {
      ItemsAreRead(items, rest);
      assert s[1..] == WriteItems(items) + ("]" + rest);
      StartOfValue(items[0]);
      assert WriteItems(items)[0] == Write(items[0])[0];
      hide ReadItems, WriteItems;
    }
  }

  lemma {:induction false} ItemsAreRead(items: seq<Value>, rest: string)
    requires items != []
    ensures ReadItems(WriteItems(items) + ("]" + rest)) == Some((items, rest))
    decreases items, 0
  {
    hide Read, Write;
    if |items| == 1 {
      var tail := "]" + rest;
      ReadUndoesWrite(items[0], tail);
      assert WriteItems(items) == Write(items[0]) + "" == Write(items[0]);
      assert tail[1..] == rest && items == [items[0]];
    } else {
      var more := WriteItems(items[1..]) + ("]" + rest);
      ReadUndoesWrite(items[0], "," + more);
      ItemsAreRead(items[1..], rest);
      Regroup(Write(items[0]), "," + WriteItems(items[1..]), "]" + rest);
      Regroup(",", WriteItems(items[1..]), "]" + rest);
      NextItem(Write(items[0]) + ("," + more), items[0], more);
      assert items == [items[0]] + items[1..];
    }
  }

  lemma NextItem(s: string, item: Value, more: string)
    requires Read(s) == Some((item, "," + more)) && ReadItems(more).Some?
    ensures ReadItems(s) == Some(([item] + ReadItems(more).value.0, ReadItems(more).value.1))
  {
    assert ("," + more)[1..] == more;
    hide Read;
  }

  lemma {:induction false} ObjectIsRead(members: seq<Member>, rest: string)
    ensures Read(Write(Object(members)) + rest) == Some((Object(members), rest))
    decreases members, 1
  {
    var s := Write(Object(members)) + rest;
    assert s == "{" + WriteMembers(members) + "}" + rest;
    if members == [] {
      assert s == "{}" + rest && s[2..] == rest;
    } else {
      MembersAreRead(members, rest);
      StartOfMembers(members);
      hide ReadMembers, WriteMembers, Read;
      hide Write, Ends;
      Braced(WriteMembers(members), rest);
      BracedIsRead(s, WriteMembers(members) + ("}" + rest));
    }
  }

  lemma Braced(inner: string, rest: string)
    ensures "{" + inner + "}" + rest == "{" + (inner + ("}" + rest))
  {
  }

  lemma StartOfMembers(members: seq<Member>)
    requires members != []
    ensures WriteMembers(members) != "" && WriteMembers(members)[0] == '"'
  {
    hide Write, EscapeAll;
  }

  lemma BracedIsRead(s: string, inner: string)
    requires s == "{" + inner && inner != "" && inner[0] != '}' && ReadMembers(inner).Some?
    ensures Read(s) == Some((Object(ReadMembers(inner).value.0), ReadMembers(inner).value.1))
  {
    assert s[1..] == inner;
    hide ReadMembers;
  }

  lemma {:induction false} MembersAreRead(members: seq<Member>, rest: string)
    requires members != []
    ensures ReadMembers(WriteMembers(members) + ("}" + rest)) == Some((members, rest))
    decreases members, 0
  {
    hide ReadMember, Write, Quote;
    if |members| == 1 {
      var tail := "}" + rest;
      MemberIsRead(members[0], tail);
      assert WriteMembers(members) == WriteMember(members[0]) + "" == WriteMember(members[0]);
      assert tail[1..] == rest && members == [members[0]];
    } else {
      var more := WriteMembers(members[1..]) + ("}" + rest);
      MemberIsRead(members[0], "," + more);
      MembersAreRead(members[1..], rest);
      assert WriteMembers(members) == WriteMember(members[0]) + ("," + WriteMembers(members[1..]));
      hide WriteMember, WriteMembers, ReadMembers;
      Regroup(WriteMember(members[0]), "," + WriteMembers(members[1..]), "}" + rest);
      Regroup(",", WriteMembers(members[1..]), "}" + rest);
      NextMember(WriteMember(members[0]) + ("," + more), members[0], more);
      assert members == [members[0]] + members[1..];
    }
  }

  lemma NextMember(s: string, m: Member, more: string)
    requires ReadMember(s) == Some((m, "," + more)) && ReadMembers(more).Some?
    ensures ReadMembers(s) == Some(([m] + ReadMembers(more).value.0, ReadMembers(more).value.1))
  {
    assert ("," + more)[1..] == more;
    hide ReadMember;
  }

  function WriteMember(m: Member): string { Quote(m.name) + ":" + Write(m.value) }

  lemma {:induction false} MemberIsRead(m: Member, tail: string)
    requires Ends(tail)
    ensures ReadMember(WriteMember(m) + tail) == Some((m, tail))
    decreases m, 0
  {
    var value := Write(m.value) + tail;
    ReadUndoesWrite(m.value, tail);
    QuotedIsRead(m.name, ":" + value);
    assert WriteMember(m) + tail == Quote(m.name) + (":" + value);
    assert (":" + value)[1..] == value;
    hide Quote, Read, Write, ReadString;
  }
}
