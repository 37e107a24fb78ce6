/**
 The layout of every tag, byte by byte: how many bytes a value takes, what number they make, and which
 targets take it. Nothing here is said through the encoder or the parser.
 */
module NbtLayout {
  import opened Options
  import opened Bytes
  import opened NbtFormat
  import opened NbtTarget
  import opened NbtTheorems

  // ---- numbers in bytes ----

  function Short(s: Bytes, at: nat): nat
    requires at + 2 <= |s|
  {
    256 * (s[at] as int) + s[at + 1]
  }

  function Word(s: Bytes, at: nat): nat
    requires at + 4 <= |s|
  {
    256 * (256 * (256 * (s[at] as int) + s[at + 1]) + s[at + 2]) + s[at + 3]
  }

  function Long(s: Bytes, at: nat): nat
    requires at + 8 <= |s|
  {
    0x1_0000_0000 * Word(s, at) + Word(s, at + 4)
  }

  /** The two's complement reading of `n` among `modulus` numbers. */
  function TwosComplement(n: nat, modulus: nat): int {
    if 2 * n < modulus then n else n - modulus
  }

  /** How many numbers a Go integer type has. */
  function Numbers(kind: IntKind): nat {
    match kind
    case Int8 => 0x100
    case Int16 => 0x1_0000
    case Int32 => 0x1_0000_0000
    case Int64 => 0x1_0000_0000_0000_0000
    case IntWord => 0x1_0000_0000_0000_0000
  }

  /** `i` is the one number of the type that is left of `x` when its upper bits are cut off. */
  predicate CutTo(i: int, kind: IntKind, x: int) {
    0 <= 2 * i + Numbers(kind) && 2 * i < Numbers(kind) && (x - i) % Numbers(kind) == 0
  }

  lemma Powers()
    ensures Pow256(1) == 0x100 && Pow256(2) == 0x1_0000 && Pow256(4) == 0x1_0000_0000
    ensures Pow256(8) == 0x1_0000_0000_0000_0000
  {
    assert Pow256(1) == 256 * Pow256(0);
    assert Pow256(2) == 256 * Pow256(1);
    assert Pow256(3) == 256 * Pow256(2);
    assert Pow256(4) == 256 * Pow256(3);
    assert Pow256(5) == 256 * Pow256(4);
    assert Pow256(6) == 256 * Pow256(5);
    assert Pow256(7) == 256 * Pow256(6);
  }

  lemma {:induction false} PrefixValue(s: Bytes, n: nat)
    requires n < |s|
    ensures FromBigEndian(s[..n + 1]) == 256 * FromBigEndian(s[..n]) + s[n]
  {
    assert s[..n + 1][..n] == s[..n];
  }

  lemma ByteValue(s: Bytes)
    requires |s| >= 1
    ensures FromBigEndian(s[..1]) == s[0]
    ensures Signed(FromBigEndian(s[..1]), 1) == TwosComplement(s[0], 0x100)
  {
    Powers();
    PrefixValue(s, 0);
  }

  lemma ShortValue(s: Bytes)
    requires |s| >= 2
    ensures FromBigEndian(s[..2]) == Short(s, 0)
    ensures Signed(FromBigEndian(s[..2]), 2) == TwosComplement(Short(s, 0), 0x1_0000)
  {
    Powers();
    ByteValue(s);
    PrefixValue(s, 1);
  }

  lemma WordValue(s: Bytes)
    requires |s| >= 4
    ensures FromBigEndian(s[..4]) == Word(s, 0)
    ensures Signed(FromBigEndian(s[..4]), 4) == TwosComplement(Word(s, 0), 0x1_0000_0000)
  {
    Powers();
    ShortValue(s);
    PrefixValue(s, 2);
    PrefixValue(s, 3);
  }

  lemma LongValue(s: Bytes)
    requires |s| >= 8
    ensures FromBigEndian(s[..8]) == Long(s, 0)
    ensures Signed(FromBigEndian(s[..8]), 8) == TwosComplement(Long(s, 0), 0x1_0000_0000_0000_0000)
  {
    Powers();
    WordValue(s);
    PrefixValue(s, 4);
    PrefixValue(s, 5);
    PrefixValue(s, 6);
    PrefixValue(s, 7);
  }

  lemma TruncatedIsCut(x: int, kind: IntKind)
    ensures CutTo(Truncated(x, IntWidth(kind)), kind, x)
  {
    Powers();
    CutByModulo(x, Numbers(kind));
  }

  lemma CutByModulo(x: int, m: nat)
    requires m > 0
    ensures (x - x % m) % m == 0 && (x - (x % m - m)) % m == 0
  {
    assert x - x % m == x / m * m && x - (x % m - m) == (x / m + 1) * m;
    Multiple(x / m, m);
    Multiple(x / m + 1, m);
  }

  lemma Multiple(q: int, m: nat)
    requires m > 0
    ensures (q * m) % m == 0
  {
    var d := q * m / m - q;
    assert (q * m) % m == -d * m;
    assert d >= 1 ==> d * m >= m;
    assert -d >= 1 ==> -d * m >= m;
  }

  // ---- what is done with a value ----

  /** The number `x` is stored in an integer, cut to its type; nothing else takes it. */
  predicate StoresInt(d: Reading<Target>, v: Target, x: int, rest: Bytes) {
    match v
    case Skip => d == Ok(Skip, rest)
    case Into(ty, _) =>
      if ty.IntType? then d.Ok? && d.rest == rest && HoldsInt(d.value, ty, x) else d == Fail(TypeMismatch)
  }

  predicate HoldsInt(t: Target, ty: GoType, x: int)
    requires ty.IntType?
  {
    t.Into? && t.ty == ty && t.val.IntVal? && CutTo(t.val.i, ty.kind, x)
  }

  /** Stored in a target of type `ty` only. */
  predicate Stores(d: Reading<Target>, v: Target, ty: GoType, val: GoVal, rest: Bytes) {
    match v
    case Skip => d == Ok(Skip, rest)
    case Into(own, _) => d == if own == ty then Ok(Into(ty, val), rest) else Fail(TypeMismatch)
  }

  lemma IntegerAt(width: nat, s: Bytes)
    ensures ParseInteger(width, s) == if |s| < width then Fail(UnexpectedEOF) else Ok(FromBigEndian(s[..width]), s[width..])
  {
  }

  lemma IntegralLeaf(tag: byte, width: nat, s: Bytes, v: Target, level: nat, limit: int)
    requires WellTyped(v) && ValidTag(tag) && KindOf(tag) == NbtFormat.Integral(width)
    requires tag != TAG_LIST && tag != TAG_COMPOUND
    ensures var d := DecodeAs(tag, s, v, level, limit);
      if |s| < width then d == Fail(UnexpectedEOF)
      else StoresInt(d, v, Signed(FromBigEndian(s[..width]), width), s[width..])
  {
    IntegerAt(width, s);
    hide FromBigEndian, ParseInteger, Signed, Truncated, CutTo, HasType, KindOf;
    if |s| >= width && v.Into? && v.ty.IntType? {
      TruncatedIsCut(Signed(FromBigEndian(s[..width]), width), v.ty.kind);
    }
  }

  lemma FloatingLeaf(tag: byte, width: nat, s: Bytes, v: Target, level: nat, limit: int)
    requires WellTyped(v) && ValidTag(tag) && KindOf(tag) == NbtFormat.Floating(width)
    requires tag != TAG_LIST && tag != TAG_COMPOUND
    ensures var d := DecodeAs(tag, s, v, level, limit);
      if |s| < width then d == Fail(UnexpectedEOF)
      else Stores(d, v, FloatType, FloatVal(width, FromBigEndian(s[..width])), s[width..])
  {
    IntegerAt(width, s);
    hide FromBigEndian, ParseInteger, HasType, KindOf;
  }

  // ---- documents ----

  /** A tag, the length of its name in two bytes, and the name. */
  function Named(tag: byte, name: Bytes): Bytes
    requires |name| < 0x1_0000
  {
    [tag, |name| / 256, |name| % 256] + name
  }

  lemma NameIsRead(name: Bytes, s: Bytes)
    requires |name| < 0x1_0000
    ensures ParseText([|name| / 256, |name| % 256] + name + s) == Ok(name, s)
  {
    var t := [|name| / 256, |name| % 256] + name + s;
    IntegerAt(2, t);
    ShortValue(t);
    assert t[2..] == name + s;
    assert (name + s)[..|name|] == name && (name + s)[|name|..] == s;
  }

  lemma NamedIsRead(tag: byte, name: Bytes, s: Bytes)
    requires |name| < 0x1_0000
    ensures var t := Named(tag, name) + s; t != [] && t[0] == tag && ParseText(t[1..]) == Ok(name, s)
  {
    NameIsRead(name, s);
    assert (Named(tag, name) + s)[1..] == [|name| / 256, |name| % 256] + name + s;
    hide ParseText;
  }

  /** Behind the tag and the name, whatever it is, comes the payload. */
  lemma DocumentLayout(tag: byte, name: Bytes, s: Bytes, v: Target, limit: int)
    requires |name| < 0x1_0000 && WellTyped(v)
    ensures DecodeDocument(Named(tag, name) + s, v, limit) == DecodeAs(tag, s, v, 0, limit)
  {
    hide DecodeAs, ParseText, Named;
    NamedIsRead(tag, name, s);
  }

  /** No tag but these twelve is known. */
  lemma UnknownTag(tag: byte, name: Bytes, s: Bytes, v: Target, limit: int)
    requires |name| < 0x1_0000 && WellTyped(v) && !(1 <= tag <= 12)
    ensures DecodeDocument(Named(tag, name) + s, v, limit) == Fail(InvalidTag)
  {
    DocumentLayout(tag, name, s, v, limit);
  }

  /** Tag 1: one byte. */
  lemma ByteLayout(name: Bytes, s: Bytes, v: Target, limit: int)
    requires |name| < 0x1_0000 && WellTyped(v)
    ensures var d := DecodeDocument(Named(1, name) + s, v, limit);
      if |s| < 1 then d == Fail(UnexpectedEOF) else StoresInt(d, v, TwosComplement(s[0], 0x100), s[1..])
  {
    hide DecodeDocument, DecodeAs, StoresInt, FromBigEndian, Signed, TwosComplement, Short, Word, Long, Named;
    DocumentLayout(1, name, s, v, limit);
    IntegralLeaf(1, 1, s, v, 0, limit);
    if |s| >= 1 {
      ByteValue(s);
    }
  }

  /** Tag 2: two bytes, the upper one first. */
  lemma ShortLayout(name: Bytes, s: Bytes, v: Target, limit: int)
    requires |name| < 0x1_0000 && WellTyped(v)
    ensures var d := DecodeDocument(Named(2, name) + s, v, limit);
      if |s| < 2 then d == Fail(UnexpectedEOF) else StoresInt(d, v, TwosComplement(Short(s, 0), 0x1_0000), s[2..])
  {
    hide DecodeDocument, DecodeAs, StoresInt, FromBigEndian, Signed, TwosComplement, Short, Word, Long, Named;
    DocumentLayout(2, name, s, v, limit);
    IntegralLeaf(2, 2, s, v, 0, limit);
    if |s| >= 2 {
      ShortValue(s);
    }
  }

  /** Tag 3: four bytes. */
  lemma IntLayout(name: Bytes, s: Bytes, v: Target, limit: int)
    requires |name| < 0x1_0000 && WellTyped(v)
    ensures var d := DecodeDocument(Named(3, name) + s, v, limit);
      if |s| < 4 then d == Fail(UnexpectedEOF) else StoresInt(d, v, TwosComplement(Word(s, 0), 0x1_0000_0000), s[4..])
  {
    DocumentLayout(3, name, s, v, limit);
    IntAnywhere(s, v, 0, limit);
    hide DecodeDocument, DecodeAs, StoresInt;
  }

  lemma IntAnywhere(s: Bytes, v: Target, level: nat, limit: int)
    requires WellTyped(v)
    ensures var d := DecodeAs(3, s, v, level, limit);
      if |s| < 4 then d == Fail(UnexpectedEOF) else StoresInt(d, v, TwosComplement(Word(s, 0), 0x1_0000_0000), s[4..])
  {
    hide DecodeAs, StoresInt, FromBigEndian, Signed, TwosComplement, Word;
    IntegralLeaf(3, 4, s, v, level, limit);
    if |s| >= 4 {
      WordValue(s);
    }
  }

  /** Tag 4: eight bytes. */
  lemma LongLayout(name: Bytes, s: Bytes, v: Target, limit: int)
    requires |name| < 0x1_0000 && WellTyped(v)
    ensures var d := DecodeDocument(Named(4, name) + s, v, limit);
      if |s| < 8 then d == Fail(UnexpectedEOF)
      else StoresInt(d, v, TwosComplement(Long(s, 0), 0x1_0000_0000_0000_0000), s[8..])
  {
    hide DecodeDocument, DecodeAs, StoresInt, FromBigEndian, Signed, TwosComplement, Short, Word, Long, Named;
    DocumentLayout(4, name, s, v, limit);
    IntegralLeaf(4, 8, s, v, 0, limit);
    if |s| >= 8 {
      LongValue(s);
    }
  }

  /** Tag 5: the bits of a float, in four bytes. */
  lemma FloatLayout(name: Bytes, s: Bytes, v: Target, limit: int)
    requires |name| < 0x1_0000 && WellTyped(v)
    ensures var d := DecodeDocument(Named(5, name) + s, v, limit);
      if |s| < 4 then d == Fail(UnexpectedEOF) else Stores(d, v, FloatType, FloatVal(4, Word(s, 0)), s[4..])
  {
    hide DecodeDocument, DecodeAs, Stores, FromBigEndian, Signed, TwosComplement, Short, Word, Long, Named;
    DocumentLayout(5, name, s, v, limit);
    FloatingLeaf(5, 4, s, v, 0, limit);
    if |s| >= 4 {
      WordValue(s);
    }
  }

  /** Tag 6: the bits of a double, in eight bytes. */
  lemma DoubleLayout(name: Bytes, s: Bytes, v: Target, limit: int)
    requires |name| < 0x1_0000 && WellTyped(v)
    ensures var d := DecodeDocument(Named(6, name) + s, v, limit);
      if |s| < 8 then d == Fail(UnexpectedEOF) else Stores(d, v, FloatType, FloatVal(8, Long(s, 0)), s[8..])
  {
    hide DecodeDocument, DecodeAs, Stores, FromBigEndian, Signed, TwosComplement, Short, Word, Long, Named;
    DocumentLayout(6, name, s, v, limit);
    FloatingLeaf(6, 8, s, v, 0, limit);
    if |s| >= 8 {
      LongValue(s);
    }
  }

  /** Tag 8: a length in two bytes, and as many bytes. */
  lemma StringLayout(name: Bytes, s: Bytes, v: Target, limit: int)
    requires |name| < 0x1_0000 && WellTyped(v)
    ensures var d := DecodeDocument(Named(8, name) + s, v, limit);
      if |s| < 2 || |s| < 2 + Short(s, 0) then d == Fail(UnexpectedEOF)
      else Stores(d, v, StringType, StringVal(s[2..2 + Short(s, 0)]), s[2 + Short(s, 0)..])
  {
    hide DecodeDocument, Named, DecodeAs;
    DocumentLayout(8, name, s, v, limit);
    StringLeaf(s, v, limit);
  }

  lemma StringLeaf(s: Bytes, v: Target, limit: int)
    requires WellTyped(v)
    ensures var d := DecodeAs(8, s, v, 0, limit);
      if |s| < 2 || |s| < 2 + Short(s, 0) then d == Fail(UnexpectedEOF)
      else Stores(d, v, StringType, StringVal(s[2..2 + Short(s, 0)]), s[2 + Short(s, 0)..])
  {
    TextAt(s);
    StringOfText(s, v, limit);
    hide DecodeAs, ParseText, Short, HasType;
  }

  lemma StringOfText(s: Bytes, v: Target, limit: int)
    requires WellTyped(v)
    ensures match ParseText(s)
      case Fail(error) => DecodeAs(8, s, v, 0, limit) == Fail(error)
      case Ok(text, rest) => Stores(DecodeAs(8, s, v, 0, limit), v, StringType, StringVal(text), rest)
  {
    TextLeaf(s);
    assert DecodeAs(8, s, v, 0, limit) == DecodeLeaf(8, s, v);
    hide ParseText, ParseLeaf, HasType, DecodeAs;
  }

  lemma TextLeaf(s: Bytes)
    ensures match ParseText(s)
      case Fail(error) => ParseLeaf(8, s) == Fail(error)
      case Ok(text, rest) => ParseLeaf(8, s) == Ok(Text(text), rest)
  {
    hide ParseText;
  }

  lemma TextAt(s: Bytes)
    ensures ParseText(s) ==
      if |s| < 2 || |s| < 2 + Short(s, 0) then Fail(UnexpectedEOF)
      else Ok(s[2..2 + Short(s, 0)], s[2 + Short(s, 0)..])
  {
    IntegerAt(2, s);
    if |s| >= 2 {
      ShortValue(s);
      hide FromBigEndian, ParseInteger, ToBigEndian;
      var n := Short(s, 0);
      if |s| >= 2 + n {
        assert s[2..][..n] == s[2..2 + n] && s[2..][n..] == s[2 + n..];
      }
    }
  }

  // ---- arrays ----

  /** Item `i` of `width` bytes each. */
  predicate ItemAt(s: Bytes, width: nat, i: nat, item: nat) {
    0 <= width * i && width * i + width <= |s| && item == FromBigEndian(s[width * i..][..width])
  }

  function Size(width: nat, n: nat): nat { width * n }

  lemma {:induction false} ItemsFit(width: nat, n: nat, s: Bytes)
    ensures var d := ParseItems(width, n, s);
      if |s| < Size(width, n) then d == Fail(UnexpectedEOF) else d.Ok? && |d.value| == n && d.rest == s[Size(width, n)..]
    decreases n
  {
    hide FromBigEndian, ParseInteger, Size;
    SizeOfMore(width, n);
    if n > 0 {
      IntegerAt(width, s);
      if |s| >= width {
        ItemsFit(width, n - 1, s[width..]);
        assert |s| >= Size(width, n) ==> s[width..][Size(width, n - 1)..] == s[Size(width, n)..];
      }
    }
  }

  lemma SizeOfMore(width: nat, n: nat)
    ensures Size(width, n) == if n == 0 then 0 else width + Size(width, n - 1)
  {
  }

  lemma {:induction false} ItemIsAt(width: nat, n: nat, s: Bytes, i: nat)
    requires i < n && ParseItems(width, n, s).Ok?
    ensures ItemAt(s, width, i, ParseItems(width, n, s).value[i])
    decreases n
  {
    hide FromBigEndian, ParseInteger, ItemAt;
    IntegerAt(width, s);
    if i > 0 {
      ItemIsAt(width, n - 1, s[width..], i - 1);
      ItemBehind(s, width, i, ParseItems(width, n - 1, s[width..]).value[i - 1]);
    } else {
      FirstItem(s, width);
    }
  }

  lemma FirstItem(s: Bytes, width: nat)
    requires width <= |s|
    ensures ItemAt(s, width, 0, FromBigEndian(s[..width]))
  {
    assert s[0..] == s;
  }

  lemma Offset(width: nat, n: nat)
    requires n > 0
    ensures width * n == width + width * (n - 1) && width * (n - 1) >= 0
  {
  }

  lemma ItemBehind(s: Bytes, width: nat, i: nat, item: nat)
    requires i > 0 && width <= |s| && ItemAt(s[width..], width, i - 1, item)
    ensures ItemAt(s, width, i, item)
  {
    Offset(width, i);
    assert s[width..][width * (i - 1)..] == s[width * i..];
  }

  /** The length in four bytes, and as many items. */
  lemma PackedLeaf(tag: byte, width: nat, s: Bytes, v: Target, level: nat, limit: int) returns (items: seq<nat>)
    requires WellTyped(v) && ValidTag(tag) && KindOf(tag) == Packed(width) && tag != TAG_LIST && tag != TAG_COMPOUND
    ensures var d := DecodeAs(tag, s, v, level, limit);
      if |s| < 4 || |s[4..]| < Size(width, Word(s, 0)) then d == Fail(UnexpectedEOF)
      else
        && |items| == Word(s, 0) && (forall i | 0 <= i < |items| :: ItemAt(s[4..], width, i, items[i]))
        && var stored := StoreLeaf(Array(tag, items), v);
           d == if stored.None? then Fail(TypeMismatch) else Ok(stored.value, s[4..][Size(width, Word(s, 0))..])
  {
    items := [];
    IntegerAt(4, s);
    hide KindOf, FromBigEndian, ParseInteger, ParseItems, HasType, Word, ItemAt, StoreLeaf;
    if |s| >= 4 {
      WordValue(s);
      ItemsFit(width, Word(s, 0), s[4..]);
      var parsed := ParseItems(width, Word(s, 0), s[4..]);
      if parsed.Ok? {
        items := parsed.value;
        forall i | 0 <= i < |items|
          ensures ItemAt(s[4..], width, i, items[i])
        {
          ItemIsAt(width, Word(s, 0), s[4..], i);
        }
      }
    }
  }

  function ByteVals(s: Bytes, n: nat): seq<GoVal>
    requires n <= |s|
  {
    seq(n, i requires 0 <= i < n => Uint8Val(s[i]))
  }

  function WordVals(s: Bytes, n: nat): seq<GoVal>
    requires 4 * n <= |s|
  {
    seq(n, i requires 0 <= i < n => IntVal(TwosComplement(Word(s, 4 * i), 0x1_0000_0000)))
  }

  function LongVals(s: Bytes, n: nat): seq<GoVal>
    requires 8 * n <= |s|
  {
    seq(n, i requires 0 <= i < n => IntVal(TwosComplement(Long(s, 8 * i), 0x1_0000_0000_0000_0000)))
  }

  lemma ByteItems(s: Bytes, items: seq<nat>)
    requires |items| <= |s| && forall i | 0 <= i < |items| :: ItemAt(s, 1, i, items[i])
    ensures Uint8Vals(items) == ByteVals(s, |items|)
  {
    forall i | 0 <= i < |items|
      ensures items[i] == s[i]
    {
      assert ItemAt(s, 1, i, items[i]);
      ByteValue(s[i..]);
    }
  }

  lemma WordItems(s: Bytes, items: seq<nat>)
    requires 4 * |items| <= |s| && forall i | 0 <= i < |items| :: ItemAt(s, 4, i, items[i])
    ensures IntVals(items, 4) == WordVals(s, |items|)
  {
    forall i | 0 <= i < |items|
      ensures Signed(items[i], 4) == TwosComplement(Word(s, 4 * i), 0x1_0000_0000)
    {
      assert ItemAt(s, 4, i, items[i]);
      WordValue(s[4 * i..]);
      hide FromBigEndian, TwosComplement, Signed;
    }
    hide TwosComplement, Signed, Word, ItemAt;
  }

  lemma LongItems(s: Bytes, items: seq<nat>)
    requires 8 * |items| <= |s| && forall i | 0 <= i < |items| :: ItemAt(s, 8, i, items[i])
    ensures IntVals(items, 8) == LongVals(s, |items|)
  {
    forall i | 0 <= i < |items|
      ensures Signed(items[i], 8) == TwosComplement(Long(s, 8 * i), 0x1_0000_0000_0000_0000)
    {
      assert ItemAt(s, 8, i, items[i]);
      LongValue(s[8 * i..]);
      hide FromBigEndian, TwosComplement, Signed;
    }
    hide TwosComplement, Signed, Long, ItemAt;
  }

  /** Tag 7: a length in four bytes, and as many bytes. */
  lemma ByteArrayLayout(name: Bytes, s: Bytes, v: Target, limit: int)
    requires |name| < 0x1_0000 && WellTyped(v)
    ensures var d := DecodeDocument(Named(7, name) + s, v, limit);
      if |s| < 4 || |s[4..]| < Word(s, 0) then d == Fail(UnexpectedEOF)
      else Stores(d, v, SliceType(Uint8Type), SliceVal(ByteVals(s[4..], Word(s, 0))), s[4..][Word(s, 0)..])
  {
    hide DecodeDocument, DecodeAs, Named, Word, Uint8Vals, IntVals, ByteVals, ItemAt, HasType;
    DocumentLayout(7, name, s, v, limit);
    var items := PackedLeaf(7, 1, s, v, 0, limit);
    if |s| >= 4 && |s[4..]| >= Word(s, 0) {
      ByteItems(s[4..], items);
    }
  }

  /** Tag 11: a length in four bytes, and as many times four bytes. */
  lemma IntArrayLayout(name: Bytes, s: Bytes, v: Target, limit: int)
    requires |name| < 0x1_0000 && WellTyped(v)
    ensures var d := DecodeDocument(Named(11, name) + s, v, limit);
      if |s| < 4 || |s[4..]| < 4 * Word(s, 0) then d == Fail(UnexpectedEOF)
      else Stores(d, v, SliceType(IntType(Int32)), SliceVal(WordVals(s[4..], Word(s, 0))), s[4..][4 * Word(s, 0)..])
  {
    hide DecodeDocument, DecodeAs, Named, Word, Uint8Vals, IntVals, WordVals, ItemAt, HasType;
    DocumentLayout(11, name, s, v, limit);
    var items := PackedLeaf(11, 4, s, v, 0, limit);
    if |s| >= 4 && |s[4..]| >= 4 * Word(s, 0) {
      WordItems(s[4..], items);
    }
  }

  /** Tag 12: a length in four bytes, and as many times eight bytes. */
  lemma LongArrayLayout(name: Bytes, s: Bytes, v: Target, limit: int)
    requires |name| < 0x1_0000 && WellTyped(v)
    ensures var d := DecodeDocument(Named(12, name) + s, v, limit);
      if |s| < 4 || |s[4..]| < 8 * Word(s, 0) then d == Fail(UnexpectedEOF)
      else Stores(d, v, SliceType(IntType(Int64)), SliceVal(LongVals(s[4..], Word(s, 0))), s[4..][8 * Word(s, 0)..])
  {
    hide DecodeDocument, DecodeAs, Named, Word, Uint8Vals, IntVals, LongVals, ItemAt, HasType;
    DocumentLayout(12, name, s, v, limit);
    var items := PackedLeaf(12, 8, s, v, 0, limit);
    if |s| >= 4 && |s[4..]| >= 8 * Word(s, 0) {
      LongItems(s[4..], items);
    }
  }

  // ---- lists ----

  lemma ListHeaderAt(s: Bytes)
    ensures ParseListHeader(s) == if |s| < 5 then Fail(UnexpectedEOF) else Ok((s[0], Word(s, 1)), s[5..])
  {
    if s != [] {
      IntegerAt(4, s[1..]);
      if |s| >= 5 {
        WordValue(s[1..]);
        assert s[1..][4..] == s[5..];
      }
    }
    hide FromBigEndian, ParseInteger, ToBigEndian;
  }

  /** Tag 9: the tag of the elements, their number in four bytes, and the elements. Without any, nothing is stored. */
  lemma ListLayout(name: Bytes, s: Bytes, v: Target, limit: int)
    requires |name| < 0x1_0000 && WellTyped(v)
    ensures var d := DecodeDocument(Named(9, name) + s, v, limit);
      && (|s| < 5 ==> d == Fail(UnexpectedEOF))
      && (|s| >= 5 && Word(s, 1) == 0 ==> d == Ok(v, s[5..]))
      && (|s| >= 5 && Word(s, 1) > 0 && !(1 <= s[0] <= 12) ==> d == Fail(InvalidTag))
      && (|s| >= 5 && Word(s, 1) > 0 && 1 <= s[0] <= 12 && v.Into? && !v.ty.SliceType? ==> d == Fail(TypeMismatch))
  {
    hide DecodeDocument, Named, ParseListHeader, Word, DecodeElems, HasType;
    DocumentLayout(9, name, s, v, limit);
    ListHeaderAt(s);
  }

  /** A list of numbers of tag 3 goes into a slice, one number after the other. */
  lemma IntListLayout(name: Bytes, s: Bytes, val: GoVal, limit: int)
    requires |name| < 0x1_0000 && HasType(val, SliceType(IntType(Int32)))
    requires |s| >= 5 && s[0] == 3 && Word(s, 1) > 0
    ensures var ty := SliceType(IntType(Int32));
      DecodeDocument(Named(9, name) + s, Into(ty, val), limit) ==
        if |s[5..]| < 4 * Word(s, 1) then Fail(UnexpectedEOF)
        else Ok(Into(ty, SliceVal(WordVals(s[5..], Word(s, 1)))), s[5..][4 * Word(s, 1)..])
  {
    hide DecodeDocument, Named, ParseListHeader, Word, DecodeElems, HasType, WordVals;
    DocumentLayout(9, name, s, Into(SliceType(IntType(Int32)), val), limit);
    ListHeaderAt(s);
    IntElems(Word(s, 1), s[5..], 0, limit, []);
    assert |s[5..]| >= 4 * Word(s, 1) ==> [] + WordVals(s[5..], Word(s, 1)) == WordVals(s[5..], Word(s, 1));
  }

  lemma {:induction false} IntElems(n: nat, s: Bytes, level: nat, limit: int, acc: seq<GoVal>)
    requires Collected(acc, Into(IntType(Int32), IntVal(0)))
    ensures DecodeElems(3, n, s, Into(IntType(Int32), IntVal(0)), level, limit, acc) ==
      if |s| < 4 * n then Fail(UnexpectedEOF) else Ok(acc + WordVals(s, n), s[4 * n..])
    decreases n
  {
    hide DecodeAs, Word, TwosComplement;
    if n > 0 {
      IntElem(s, level, limit);
      if |s| >= 4 {
        var x := TwosComplement(Word(s, 0), 0x1_0000_0000);
        IntElems(n - 1, s[4..], level, limit, acc + [IntVal(x)]);
        if |s| >= 4 * n {
          FirstWord(s, n);
          assert acc + [IntVal(x)] + WordVals(s[4..], n - 1) == acc + WordVals(s, n);
          assert s[4..][4 * (n - 1)..] == s[4 * n..];
        }
      }
    } else {
      assert acc + WordVals(s, 0) == acc;
    }
  }

  lemma IntElem(s: Bytes, level: nat, limit: int)
    ensures DecodeAs(3, s, Into(IntType(Int32), IntVal(0)), level, limit) ==
      if |s| < 4 then Fail(UnexpectedEOF)
      else Ok(Into(IntType(Int32), IntVal(TwosComplement(Word(s, 0), 0x1_0000_0000))), s[4..])
  {
    var elem := Into(IntType(Int32), IntVal(0));
    IntAnywhere(s, elem, level, limit);
    if |s| >= 4 {
      WordIsBelow(s);
      hide DecodeAs, Word;
      var d := DecodeAs(3, s, elem, level, limit);
      CutToItself(d.value.val.i, TwosComplement(Word(s, 0), 0x1_0000_0000));
    }
  }

  lemma WordIsBelow(s: Bytes)
    requires |s| >= 4
    ensures Word(s, 0) < 0x1_0000_0000
  {
  }

  lemma CutToItself(i: int, x: int)
    requires CutTo(i, Int32, x) && -0x8000_0000 <= x < 0x8000_0000
    ensures i == x
  {
  }

  lemma FirstWord(s: Bytes, n: nat)
    requires n > 0 && 4 * n <= |s|
    ensures WordVals(s, n) == [IntVal(TwosComplement(Word(s, 0), 0x1_0000_0000))] + WordVals(s[4..], n - 1)
  {
    hide TwosComplement;
    forall i | 0 < i < n
      ensures Word(s, 4 * i) == Word(s[4..], 4 * (i - 1))
    {
    }
    hide Word;
  }

  /** A value nothing has been stored in. */
  predicate IsZero(val: GoVal, ty: GoType)
    requires HasType(val, ty)
    decreases ty
  {
    match ty
    case IntType(_) => val.i == 0
    case FloatType => val.bits == 0
    case StringType => val.bytes == []
    case Uint8Type => val.u == 0
    case SliceType(_) => val.elems == []
    case StructType(fields) => forall i | 0 <= i < |fields| :: IsZero(val.fields[i], fields[i].ty)
    case OtherType => true
  }

  lemma {:induction false} ZeroIsZero(ty: GoType)
    ensures IsZero(Zero(ty), ty)
  {
    if ty.StructType? {
      forall i | 0 <= i < |ty.fields|
        ensures IsZero(Zero(ty.fields[i].ty), ty.fields[i].ty)
      {
        ZeroIsZero(ty.fields[i].ty);
      }
    }
  }

  /** What an element of a list leaves out is zero, whatever the slice held before. */
  lemma NewElementIsZero(name: Bytes, tail: Bytes, fields: seq<Field>, val: GoVal, limit: int) returns (elem: GoVal)
    requires |name| < 0x1_0000 && HasType(val, SliceType(StructType(fields)))
    ensures HasType(elem, StructType(fields)) && IsZero(elem, StructType(fields))
    ensures var ty := SliceType(StructType(fields));
      DecodeDocument(Named(9, name) + ([10, 0, 0, 0, 1, 0] + tail), Into(ty, val), limit) == Ok(Into(ty, SliceVal([elem])), tail)
  {
    var ty := StructType(fields);
    elem := Zero(ty);
    ZeroIsZero(ty);
    hide DecodeDocument, Named, ParseListHeader, HasType, Zero, IsZero;
    var s := [10, 0, 0, 0, 1, 0] + tail;
    DocumentLayout(9, name, s, Into(SliceType(ty), val), limit);
    ListHeaderAt(s);
    assert Word(s, 1) == 1;
    assert s[5..] == [0] + tail && ([0] + tail)[1..] == tail;
    var e := Into(ty, elem);
    EmptyCompound(tail, e, 0, limit);
    OneElem(s[5..], e, tail, limit);
  }

  lemma EmptyCompound(tail: Bytes, v: Target, level: nat, limit: int)
    requires WellTyped(v) && (v.Into? ==> v.ty.StructType?) && (limit > 0 ==> level < limit)
    ensures DecodeAs(10, [0] + tail, v, level, limit) == Ok(v, tail)
  {
    assert ([0] + tail)[1..] == tail;
    assert DecodeEntries([0] + tail, v, level, limit) == Ok(v, tail);
    hide HasType, DecodeEntries;
  }

  lemma OneElem(s: Bytes, elem: Target, tail: Bytes, limit: int)
    requires WellTyped(elem) && elem.Into? && DecodeAs(10, s, elem, 0, limit) == Ok(elem, tail)
    ensures DecodeElems(10, 1, s, elem, 0, limit, []) == Ok([elem.val], tail)
  {
    hide DecodeAs, HasType;
    assert [] + [elem.val] == [elem.val];
  }

  // ---- compounds ----

  /** The last field that is stored under `key`: its `nbt` key or, if it has none, its name. */
  predicate LastWithKey(fields: seq<Field>, key: Bytes, i: nat) {
    i < |fields| && HasKey(fields[i], key) && forall j | i < j < |fields| :: !HasKey(fields[j], key)
  }

  predicate HasKey(f: Field, key: Bytes) {
    if f.tag != [] then f.tag == key else f.name == key
  }

  /** Tag 10: entries like documents, up to a zero byte. Here one number goes into the field with its name, if there is one. */
  lemma CompoundLayout(name: Bytes, key: Bytes, payload: Bytes, tail: Bytes, v: Target, limit: int)
    requires |name| < 0x1_0000 && |key| < 0x1_0000 && |payload| == 4 && WellTyped(v)
    ensures var d := DecodeDocument(Named(10, name) + (Named(3, key) + (payload + ([0] + tail))), v, limit);
      match v
      case Skip => d == Ok(Skip, tail)
      case Into(ty, val) =>
        if !ty.StructType? then d == Fail(NotStruct)
        else if forall j | 0 <= j < |ty.fields| :: !HasKey(ty.fields[j], key) then d == Ok(v, tail)
        else
          exists i: nat :: LastWithKey(ty.fields, key, i) &&
            if !ty.fields[i].ty.IntType? then d == Fail(TypeMismatch)
            else
              && d.Ok? && d.rest == tail && SameTarget(v, d.value)
              && HoldsInt(Into(ty.fields[i].ty, d.value.val.fields[i]), ty.fields[i].ty,
                   TwosComplement(Word(payload, 0), 0x1_0000_0000))
              && forall j | 0 <= j < |ty.fields| && j != i :: d.value.val.fields[j] == val.fields[j]
  {
    hide DecodeDocument, DecodeAs, HasType, Word, TwosComplement, Named, HoldsInt, SetField, FieldTarget;
    var entry := Named(3, key) + (payload + ([0] + tail));
    DocumentLayout(10, name, entry, v, limit);
    OneEntryCompound(key, payload, tail, v, limit);
    if v.Into? && v.ty.StructType? {
      FieldOfKey(v.ty.fields, key);
      IntField(v, key, payload, [0] + tail, limit);
    } else if v.Skip? {
      IntSkipped(payload, [0] + tail, limit);
    }
  }

  lemma IntSkipped(payload: Bytes, rest: Bytes, limit: int)
    requires |payload| == 4
    ensures DecodeAs(3, payload + rest, Skip, 1, limit) == Ok(Skip, rest)
    ensures forall key :: FieldTarget(Skip, key) == Skip && SetField(Skip, key, Skip) == Skip
  {
    IntAnywhere(payload + rest, Skip, 1, limit);
    assert (payload + rest)[4..] == rest;
    hide DecodeAs;
  }

  /** What becomes of a number in a struct. */
  lemma IntField(v: Target, key: Bytes, payload: Bytes, rest: Bytes, limit: int)
    requires WellTyped(v) && v.Into? && v.ty.StructType? && |payload| == 4
    ensures var i, d := FieldIndex(v.ty.fields, key), DecodeAs(3, payload + rest, FieldTarget(v, key), 1, limit);
      if i.None? then d == Ok(Skip, rest) && SetField(v, key, Skip) == v
      else if !v.ty.fields[i.value].ty.IntType? then d == Fail(TypeMismatch)
      else
        && d.Ok? && d.rest == rest && SameTarget(FieldTarget(v, key), d.value)
        && var w := SetField(v, key, d.value);
           && SameTarget(v, w)
           && HoldsInt(Into(v.ty.fields[i.value].ty, w.val.fields[i.value]), v.ty.fields[i.value].ty,
                TwosComplement(Word(payload, 0), 0x1_0000_0000))
           && forall j | 0 <= j < |v.ty.fields| && j != i.value :: w.val.fields[j] == v.val.fields[j]
  {
    hide DecodeAs, Word, TwosComplement;
    IntAnywhere(payload + rest, FieldTarget(v, key), 1, limit);
    assert (payload + rest)[4..] == rest;
    SameWord(payload, rest);
  }

  lemma SameWord(s: Bytes, more: Bytes)
    requires |s| >= 4
    ensures Word(s + more, 0) == Word(s, 0)
  {
  }

  lemma FieldOfKey(fields: seq<Field>, key: Bytes)
    ensures var i := FieldIndex(fields, key);
      if i.None? then forall j | 0 <= j < |fields| :: !HasKey(fields[j], key) else LastWithKey(fields, key, i.value)
  {
    assert forall f :: HasKey(f, key) <==> KeyOf(f) == key;
  }

  /** A compound of one entry with tag 3. */
  lemma OneEntryCompound(key: Bytes, payload: Bytes, tail: Bytes, v: Target, limit: int)
    requires |key| < 0x1_0000 && |payload| == 4 && WellTyped(v)
    ensures var d := DecodeAs(10, Named(3, key) + (payload + ([0] + tail)), v, 0, limit);
      if v.Into? && !v.ty.StructType? then d == Fail(NotStruct)
      else
        var e := DecodeAs(3, payload + ([0] + tail), FieldTarget(v, key), 1, limit);
        if e.Fail? then d == Fail(e.error) else e.rest == [0] + tail ==> d == Ok(SetField(v, key, e.value), tail)
  {
    var s := Named(3, key) + (payload + ([0] + tail));
    hide DecodeAs, DecodeEntries, ParseText, HasType, FieldTarget, SetField, Named;
    NamedIsRead(3, key, payload + ([0] + tail));
    CompoundIsEntries(s, v, 0, limit);
    if v.Skip? || v.ty.StructType? {
      EntryThenEnd(s, key, payload + ([0] + tail), tail, v, limit);
    }
  }

  lemma CompoundIsEntries(s: Bytes, v: Target, level: nat, limit: int)
    requires WellTyped(v)
    ensures DecodeAs(10, s, v, level, limit) ==
      if limit > 0 && level >= limit then Fail(LevelLimit)
      else if v.Into? && !v.ty.StructType? then Fail(NotStruct)
      else DecodeEntries(s, v, level, limit)
  {
    hide DecodeEntries, HasType;
  }

  lemma EntryThenEnd(s: Bytes, key: Bytes, s1: Bytes, tail: Bytes, v: Target, limit: int)
    requires WellTyped(v) && (v.Into? ==> v.ty.StructType?) && s != [] && s[0] == 3 && ParseText(s[1..]) == Ok(key, s1)
    ensures var e := DecodeAs(3, s1, FieldTarget(v, key), 1, limit);
      if e.Fail? then DecodeEntries(s, v, 0, limit) == Fail(e.error)
      else e.rest == [0] + tail ==> DecodeEntries(s, v, 0, limit) == Ok(SetField(v, key, e.value), tail)
  {
    hide DecodeAs, ParseText, HasType, FieldTarget, SetField;
    assert ([0] + tail)[1..] == tail;
  }

  // ---- nested compounds ----

  /** `n` compounds inside one another, each the only entry of the one around it, without a name. */
  function Nested(n: nat): Bytes {
    if n == 0 then [0] else [10, 0, 0] + (Nested(n - 1) + [0])
  }

  /** A compound with `n` more inside one another is within a limit exactly if that is below it. */
  lemma NestedLayout(name: Bytes, n: nat, tail: Bytes, limit: int)
    requires |name| < 0x1_0000
    ensures DecodeDocument(Named(10, name) + (Nested(n) + tail), Skip, limit) ==
      if limit <= 0 || n < limit then Ok(Skip, tail) else Fail(LevelLimit)
  {
    DocumentLayout(10, name, Nested(n) + tail, Skip, limit);
    NestedFrom(n, tail, 0, limit);
  }

  lemma {:induction false} NestedFrom(n: nat, tail: Bytes, level: nat, limit: int)
    ensures DecodeAs(10, Nested(n) + tail, Skip, level, limit) ==
      if limit <= 0 || level + n < limit then Ok(Skip, tail) else Fail(LevelLimit)
  {
    if n == 0 {
      assert Nested(0) + tail == [0] + tail;
      if !(limit > 0 && level >= limit) {
        EmptyCompound(tail, Skip, level, limit);
      }
    } else {
      var inner := [0] + tail;
      NestedFrom(n - 1, inner, level + 1, limit);
      InnerCompound(Nested(n - 1), tail, level, limit);
      assert Nested(n) + tail == [10, 0, 0] + (Nested(n - 1) + inner);
    }
  }

  lemma InnerCompound(body: Bytes, tail: Bytes, level: nat, limit: int)
    ensures var d := DecodeAs(10, body + ([0] + tail), Skip, level + 1, limit);
      DecodeAs(10, [10, 0, 0] + (body + ([0] + tail)), Skip, level, limit) ==
        if limit > 0 && level >= limit then Fail(LevelLimit)
        else if d.Fail? then Fail(d.error)
        else if d.rest == [0] + tail then Ok(Skip, tail)
        else DecodeEntries(d.rest, Skip, level, limit)
  {
    var s1 := body + ([0] + tail);
    var s := [10, 0, 0] + s1;
    NameIsRead([], s1);
    assert s[0] == 10 && s[1..] == [0, 0] + [] + s1;
    assert ([0] + tail)[1..] == tail;
    hide ParseText, DecodeEntries, DecodeAs;
    CompoundIsEntries(s, Skip, level, limit);
    InnerEntry(s, s1, tail, level, limit);
  }

  lemma InnerEntry(s: Bytes, s1: Bytes, tail: Bytes, level: nat, limit: int)
    requires s != [] && s[0] == 10 && ParseText(s[1..]) == Ok([], s1)
    ensures var d := DecodeAs(10, s1, Skip, level + 1, limit);
      DecodeEntries(s, Skip, level, limit) ==
        if d.Fail? then Fail(d.error)
        else if d.rest == [0] + tail then Ok(Skip, tail)
        else DecodeEntries(d.rest, Skip, level, limit)
  {
    hide ParseText, DecodeAs;
    assert ([0] + tail)[1..] == tail;
  }
}
