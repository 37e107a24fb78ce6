/**
 The NBT payload format as the decoder reads it: full trees, the encoder they are written with,
 and a parser that keeps everything. Numbers are kept as bit patterns.
 */
module NbtFormat {
  import opened Bytes

  datatype Error = UnexpectedEOF | TypeMismatch | LevelLimit | NotStruct | InvalidTag

  /** What reading from a byte string gives: a value and the bytes behind it, or an error. */
  datatype Reading<+T> = Ok(value: T, rest: Bytes) | Fail(error: Error) {
    predicate IsFailure() { Fail? }
    function PropagateFailure<U>(): Reading<U>
      requires Fail?
    {
      Fail(error)
    }
    function Extract(): (T, Bytes)
      requires Ok?
    {
      (value, rest)
    }
  }

  const TAG_END: byte := 0
  const TAG_LIST: byte := 9
  const TAG_COMPOUND: byte := 10

  /** The shape a tag number stands for. */
  datatype Kind = Integral(width: nat) | Floating(width: nat) | Packed(width: nat) | Str | Sequence | Record

  function KindOf(tag: byte): (k: Kind)
    requires ValidTag(tag)
    ensures (k.Integral? || k.Floating? || k.Packed?) ==> k.width in {1, 2, 4, 8}
    ensures k.Floating? ==> k.width in {4, 8}
    ensures k.Packed? ==> k.width in {1, 4, 8}
  {
    match tag
    case 1 => Integral(1)
    case 2 => Integral(2)
    case 3 => Integral(4)
    case 4 => Integral(8)
    case 5 => Floating(4)
    case 6 => Floating(8)
    case 7 => Packed(1)
    case 8 => Str
    case 9 => Sequence
    case 10 => Record
    case 11 => Packed(4)
    case _ => Packed(8)
  }

  /** The tags `getTypeReader` has a reader for. */
  predicate ValidTag(tag: byte) { 1 <= tag <= 12 }

  datatype Nbt =
    | Leaf(tag: byte, bits: nat)
    | Array(tag: byte, items: seq<nat>)
    | Text(bytes: Bytes)
    | List(elemTag: byte, elems: seq<Nbt>)
    | Compound(entries: seq<Entry>)

  datatype Entry = Entry(name: Bytes, value: Nbt)

  function TagOf(t: Nbt): byte {
    match t
    case Leaf(tag, _) => tag
    case Array(tag, _) => tag
    case Text(_) => 8
    case List(_, _) => TAG_LIST
    case Compound(_) => TAG_COMPOUND
  }

  /** Trees that can be written: every number and length fits its field, list elements share the list's tag. */
  predicate WellFormed(t: Nbt)
    decreases t, 0
  {
    match t
    case Leaf(tag, bits) =>
      ValidTag(tag) && (KindOf(tag).Integral? || KindOf(tag).Floating?) && bits < Pow256(KindOf(tag).width)
    case Array(tag, items) =>
      && ValidTag(tag) && KindOf(tag).Packed? && |items| < Pow256(4)
      && forall i | 0 <= i < |items| :: items[i] < Pow256(KindOf(tag).width)
    case Text(bytes) => |bytes| < Pow256(2)
    case List(elemTag, elems) => |elems| < Pow256(4) && WellFormedElems(elemTag, elems)
    case Compound(entries) => WellFormedEntries(entries)
  }

  predicate WellFormedElems(tag: byte, elems: seq<Nbt>)
    decreases elems, 1
  {
    elems != [] ==>
      && ValidTag(tag) && TagOf(elems[0]) == tag && WellFormed(elems[0])
      && WellFormedElems(tag, elems[1..])
  }

  predicate WellFormedEntries(entries: seq<Entry>)
    decreases entries, 1
  {
    entries != [] ==>
      && |entries[0].name| < Pow256(2) && WellFormed(entries[0].value)
      && WellFormedEntries(entries[1..])
  }

  /** The largest number of compounds on a path from the root; lists do not count. */
  function CompoundDepth(t: Nbt): nat
    decreases t, 0
  {
    match t
    case Leaf(_, _) => 0
    case Array(_, _) => 0
    case Text(_) => 0
    case List(_, elems) => ElemsDepth(elems)
    case Compound(entries) => 1 + EntriesDepth(entries)
  }

  function ElemsDepth(elems: seq<Nbt>): nat
    decreases elems, 1
  {
    if elems == [] then 0 else Max(CompoundDepth(elems[0]), ElemsDepth(elems[1..]))
  }

  function EntriesDepth(entries: seq<Entry>): nat
    decreases entries, 1
  {
    if entries == [] then 0 else Max(CompoundDepth(entries[0].value), EntriesDepth(entries[1..]))
  }

  function Max(a: nat, b: nat): nat { if a < b then b else a }

  /** Reading a tree of this compound depth at this level stays within the limit; limit 0 (or less) means none. */
  predicate Fits(depth: nat, level: nat, limit: int) {
    limit <= 0 || depth == 0 || level + depth <= limit
  }

  // ---- the encoder ----

  function Encode(t: Nbt): Bytes
    requires WellFormed(t)
    decreases t, 0
  {
    match t
    case Leaf(tag, bits) => ToBigEndian(bits, KindOf(tag).width)
    case Array(tag, items) => ToBigEndian(|items|, 4) + EncodeItems(KindOf(tag).width, items)
    case Text(bytes) => ToBigEndian(|bytes|, 2) + bytes
    case List(elemTag, elems) => [elemTag] + ToBigEndian(|elems|, 4) + EncodeElems(elemTag, elems)
    case Compound(entries) => EncodeEntries(entries)
  }

  function EncodeItems(width: nat, items: seq<nat>): Bytes {
    if items == [] then [] else ToBigEndian(items[0], width) + EncodeItems(width, items[1..])
  }

  function EncodeElems(tag: byte, elems: seq<Nbt>): Bytes
    requires WellFormedElems(tag, elems)
    decreases elems, 1
  {
    if elems == [] then [] else Encode(elems[0]) + EncodeElems(tag, elems[1..])
  }

  function EncodeEntries(entries: seq<Entry>): Bytes
    requires WellFormedEntries(entries)
    decreases entries, 1
  {
    if entries == [] then [TAG_END]
    else
      EncodeEntry(entries[0]) + EncodeEntries(entries[1..])
  }

  /** The bytes of one named entry, up to the next one. */
  function EncodeEntry(e: Entry): Bytes
    requires |e.name| < Pow256(2) && WellFormed(e.value)
    decreases e, 1
  {
    [TagOf(e.value)] + EncodeNamed(e)
  }

  function EncodeNamed(e: Entry): Bytes
    requires |e.name| < Pow256(2) && WellFormed(e.value)
    decreases e, 0
  {
    ToBigEndian(|e.name|, 2) + e.name + Encode(e.value)
  }

  // ---- the parser ----

  function Take(n: nat, s: Bytes): (r: Reading<Bytes>)
    ensures r.Ok? <==> n <= |s|
    ensures r.Ok? ==> |r.value| == n && s == r.value + r.rest
  {
    if |s| < n then Fail(UnexpectedEOF) else Ok(s[..n], s[n..])
  }

  function ParseByte(s: Bytes): (r: Reading<byte>)
    ensures r.Ok? <==> s != []
    ensures r.Ok? ==> s == [r.value] + r.rest
  {
    if s == [] then Fail(UnexpectedEOF) else Ok(s[0], s[1..])
  }

  function ParseInteger(width: nat, s: Bytes): (r: Reading<nat>)
    ensures r.Ok? ==> r.value < Pow256(width) && s == ToBigEndian(r.value, width) + r.rest
  {
    var (bytes, rest) :- Take(width, s);
    EncodeInteger(bytes);
    Ok(FromBigEndian(bytes), rest)
  }

  function ParseItems(width: nat, n: nat, s: Bytes): (r: Reading<seq<nat>>)
    ensures r.Ok? ==> |r.value| == n && s == EncodeItems(width, r.value) + r.rest
    ensures r.Ok? ==> forall i | 0 <= i < n :: r.value[i] < Pow256(width)
  {
    if n == 0 then Ok([], s)
    else
      var (item, s1) :- ParseInteger(width, s);
      var (items, rest) :- ParseItems(width, n - 1, s1);
      assert ([item] + items)[1..] == items;
      assert s == EncodeItems(width, [item] + items) + rest;
      Ok([item] + items, rest)
  }

  function ParseText(s: Bytes): (r: Reading<Bytes>)
    ensures r.Ok? ==> |r.value| < Pow256(2) && s == ToBigEndian(|r.value|, 2) + r.value + r.rest
  {
    var (n, s1) :- ParseInteger(2, s);
    Take(n, s1)
  }

  /** A tag without children: a number, a packed array or a string. */
  function ParseLeaf(tag: byte, s: Bytes): (r: Reading<Nbt>)
    requires ValidTag(tag) && tag != TAG_LIST && tag != TAG_COMPOUND
    ensures r.Ok? ==> TagOf(r.value) == tag && CompoundDepth(r.value) == 0
    ensures r.Ok? ==> |r.rest| < |s|
  {
    var kind := KindOf(tag);
    if kind.Str? then
      var (bytes, rest) :- ParseText(s);
      Ok(Text(bytes), rest)
    else if kind.Packed? then
      var (n, s1) :- ParseInteger(4, s);
      var (items, rest) :- ParseItems(kind.width, n, s1);
      Ok(Array(tag, items), rest)
    else
      var (bits, rest) :- ParseInteger(kind.width, s);
      Ok(Leaf(tag, bits), rest)
  }

  /** The element tag and the length a list starts with. */
  function ParseListHeader(s: Bytes): (r: Reading<(byte, nat)>)
    ensures r.Ok? ==> r.value.1 < Pow256(4) && s == [r.value.0] + ToBigEndian(r.value.1, 4) + r.rest
    ensures r.Ok? ==> |r.rest| < |s|
  {
    var (elemTag, s1) :- ParseByte(s);
    var (n, rest) :- ParseInteger(4, s1);
    Ok((elemTag, n), rest)
  }

  /** The payload of a tag, with every name and value kept. */
  function Parse(tag: byte, s: Bytes, level: nat, limit: int): (r: Reading<Nbt>)
    ensures r.Ok? ==> |r.rest| < |s|
    decreases |s|, 2
  {
    if !ValidTag(tag) then Fail(InvalidTag)
    else if tag == TAG_LIST then ParseList(s, level, limit)
    else if tag == TAG_COMPOUND then ParseCompound(s, level, limit)
    else ParseLeaf(tag, s)
  }

  function ParseList(s: Bytes, level: nat, limit: int): (r: Reading<Nbt>)
    ensures r.Ok? ==> |r.rest| < |s|
    decreases |s|, 0
  {
    var (header, s1) :- ParseListHeader(s);
    if header.1 == 0 then Ok(List(header.0, []), s1)
    else
      var (elems, rest) :- ParseElems(header.0, header.1, s1, level, limit);
      Ok(List(header.0, elems), rest)
  }

  function ParseCompound(s: Bytes, level: nat, limit: int): (r: Reading<Nbt>)
    ensures r.Ok? ==> |r.rest| < |s|
    decreases |s|, 1
  {
    if limit > 0 && level >= limit then Fail(LevelLimit)
    else
      var (entries, rest) :- ParseEntries(s, level, limit);
      Ok(Compound(entries), rest)
  }

  function ParseElems(tag: byte, n: nat, s: Bytes, level: nat, limit: int): (r: Reading<seq<Nbt>>)
    ensures r.Ok? ==> |r.value| == n && |r.rest| <= |s|
    decreases |s|, 3
  {
    if n == 0 then Ok([], s)
    else
      var (elem, s1) :- Parse(tag, s, level, limit);
      var (elems, rest) :- ParseElems(tag, n - 1, s1, level, limit);
      Ok([elem] + elems, rest)
  }

  function ParseEntries(s: Bytes, level: nat, limit: int): (r: Reading<seq<Entry>>)
    ensures r.Ok? ==> |r.rest| < |s|
    decreases |s|, 0
  {
    var (tag, s1) :- ParseByte(s);
    if tag == TAG_END then Ok([], s1)
    else
      var (entry, s2) :- ParseEntry(tag, s1, level, limit);
      var (entries, rest) :- ParseEntries(s2, level, limit);
      Ok([entry] + entries, rest)
  }

  /** The name and the value behind an entry's tag. */
  function ParseEntry(tag: byte, s: Bytes, level: nat, limit: int): (r: Reading<Entry>)
    ensures r.Ok? ==> |r.rest| < |s|
    decreases |s|, 0
  {
    var (name, s1) :- ParseText(s);
    var (value, rest) :- Parse(tag, s1, level + 1, limit);
    Ok(Entry(name, value), rest)
  }

  // ---- one more child in front ----

  lemma ElemInFront(tag: byte, elem: Nbt, elems: seq<Nbt>, rest: Bytes)
    requires ValidTag(tag) && TagOf(elem) == tag && WellFormed(elem) && WellFormedElems(tag, elems)
    ensures WellFormedElems(tag, [elem] + elems)
    ensures EncodeElems(tag, [elem] + elems) + rest == Encode(elem) + (EncodeElems(tag, elems) + rest)
    ensures ElemsDepth([elem] + elems) == Max(CompoundDepth(elem), ElemsDepth(elems))
  {
    assert ([elem] + elems)[1..] == elems;
    Regroup(Encode(elem), EncodeElems(tag, elems), rest);
  }

  lemma EntryInFront(e: Entry, entries: seq<Entry>, rest: Bytes)
    requires |e.name| < Pow256(2) && WellFormed(e.value) && WellFormedEntries(entries)
    ensures WellFormedEntries([e] + entries)
    ensures EncodeEntries([e] + entries) + rest == EncodeEntry(e) + (EncodeEntries(entries) + rest)
    ensures EntriesDepth([e] + entries) == Max(CompoundDepth(e.value), EntriesDepth(entries))
  {
    assert ([e] + entries)[1..] == entries;
    Regroup(EncodeEntry(e), EncodeEntries(entries), rest);
  }

  // ---- parsing undoes encoding ----

  lemma {:induction false} IntegerRoundTrip(n: nat, width: nat, tail: Bytes)
    requires n < Pow256(width)
    ensures ParseInteger(width, ToBigEndian(n, width) + tail) == Ok(n, tail)
  {
    DecodeInteger(n, width);
    var s := ToBigEndian(n, width) + tail;
    assert s[..width] == ToBigEndian(n, width) && s[width..] == tail;
  }

  lemma {:induction false} ItemsRoundTrip(width: nat, items: seq<nat>, tail: Bytes)
    requires forall i | 0 <= i < |items| :: items[i] < Pow256(width)
    ensures ParseItems(width, |items|, EncodeItems(width, items) + tail) == Ok(items, tail)
  {
    if items == [] {
      assert EncodeItems(width, items) + tail == tail;
    } else {
      var rest := EncodeItems(width, items[1..]) + tail;
      Regroup(ToBigEndian(items[0], width), EncodeItems(width, items[1..]), tail);
      IntegerRoundTrip(items[0], width, rest);
      ItemsRoundTrip(width, items[1..], tail);
      assert items == [items[0]] + items[1..];
    }
  }

  lemma {:induction false} TextRoundTrip(bytes: Bytes, tail: Bytes)
    requires |bytes| < Pow256(2)
    ensures ParseText(ToBigEndian(|bytes|, 2) + bytes + tail) == Ok(bytes, tail)
  {
    Regroup(ToBigEndian(|bytes|, 2), bytes, tail);
    IntegerRoundTrip(|bytes|, 2, bytes + tail);
    assert (bytes + tail)[..|bytes|] == bytes && (bytes + tail)[|bytes|..] == tail;
  }

  lemma ListHeaderRoundTrip(elemTag: byte, n: nat, tail: Bytes)
    requires n < Pow256(4)
    ensures ParseListHeader([elemTag] + ToBigEndian(n, 4) + tail) == Ok((elemTag, n), tail)
  {
    var s := [elemTag] + ToBigEndian(n, 4) + tail;
    assert s[1..] == ToBigEndian(n, 4) + tail;
    IntegerRoundTrip(n, 4, tail);
  }

  lemma ArrayRoundTrip(tag: byte, items: seq<nat>, tail: Bytes)
    requires WellFormed(Array(tag, items))
    ensures ParseLeaf(tag, Encode(Array(tag, items)) + tail) == Ok(Array(tag, items), tail)
  {
    var width := KindOf(tag).width;
    Regroup(ToBigEndian(|items|, 4), EncodeItems(width, items), tail);
    IntegerRoundTrip(|items|, 4, EncodeItems(width, items) + tail);
    ItemsRoundTrip(width, items, tail);
  }

  lemma LeafRoundTrip(t: Nbt, tail: Bytes)
    requires WellFormed(t) && !t.List? && !t.Compound?
    ensures ParseLeaf(TagOf(t), Encode(t) + tail) == Ok(t, tail)
  {
    match t
    case Leaf(tag, bits) => IntegerRoundTrip(bits, KindOf(tag).width, tail);
    case Array(tag, items) => ArrayRoundTrip(tag, items, tail);
    case Text(bytes) => TextRoundTrip(bytes, tail);
  }

  /** Parsing what the encoder wrote gives the tree back and leaves the bytes behind it alone. */
  lemma {:induction false} ParseUndoesEncode(t: Nbt, tail: Bytes, level: nat, limit: int)
    requires WellFormed(t) && Fits(CompoundDepth(t), level, limit)
    ensures Parse(TagOf(t), Encode(t) + tail, level, limit) == Ok(t, tail)
    decreases t, 0
  {
    hide ParseElems, ParseEntries, EncodeElems, ParseLeaf, ParseList, Pow256, ToBigEndian;
    if t.List? {
      ParseUndoesEncodeElems(t.elemTag, t.elems, tail, level, limit);
      ListRoundTrip(t.elemTag, t.elems, tail, level, limit);
    } else if t.Compound? {
      ParseUndoesEncodeEntries(t.entries, tail, level, limit);
    } else {
      LeafRoundTrip(t, tail);
    }
  }

  lemma ListRoundTrip(elemTag: byte, elems: seq<Nbt>, tail: Bytes, level: nat, limit: int)
    requires WellFormed(List(elemTag, elems))
    requires ParseElems(elemTag, |elems|, EncodeElems(elemTag, elems) + tail, level, limit) == Ok(elems, tail)
    ensures ParseList(Encode(List(elemTag, elems)) + tail, level, limit) == Ok(List(elemTag, elems), tail)
  {
    var body := EncodeElems(elemTag, elems) + tail;
    assert elems == [] ==> body == tail;
    hide ParseElems, EncodeElems, ParseListHeader, ToBigEndian, WellFormedElems, Pow256, ElemsDepth;
    ListHeaderRoundTrip(elemTag, |elems|, body);
    Regroup([elemTag] + ToBigEndian(|elems|, 4), EncodeElems(elemTag, elems), tail);
  }

  lemma {:induction false} ParseUndoesEncodeElems(tag: byte, elems: seq<Nbt>, tail: Bytes, level: nat, limit: int)
    requires WellFormedElems(tag, elems)
    requires Fits(ElemsDepth(elems), level, limit)
    ensures ParseElems(tag, |elems|, EncodeElems(tag, elems) + tail, level, limit) == Ok(elems, tail)
    decreases elems, 1
  {
    if elems == [] {
      assert EncodeElems(tag, elems) + tail == tail;
    } else {
      var rest := EncodeElems(tag, elems[1..]) + tail;
      Regroup(Encode(elems[0]), EncodeElems(tag, elems[1..]), tail);
      ParseUndoesEncode(elems[0], rest, level, limit);
      ParseUndoesEncodeElems(tag, elems[1..], tail, level, limit);
      assert elems == [elems[0]] + elems[1..];
    }
  }

  lemma {:induction false} ParseUndoesEncodeEntries(entries: seq<Entry>, tail: Bytes, level: nat, limit: int)
    requires WellFormedEntries(entries)
    requires Fits(1 + EntriesDepth(entries), level, limit)
    ensures ParseEntries(EncodeEntries(entries) + tail, level, limit) == Ok(entries, tail)
    decreases entries, 1
  {
    var s := EncodeEntries(entries) + tail;
    if entries == [] {
      assert s[1..] == tail;
    } else {
      var e, rest := entries[0], EncodeEntries(entries[1..]) + tail;
      assert entries == [e] + entries[1..];
      EntryInFront(e, entries[1..], tail);
      assert s[1..] == EncodeNamed(e) + rest;
      ParseUndoesEncodeNamed(e, rest, level, limit);
      ParseUndoesEncodeEntries(entries[1..], tail, level, limit);
    }
  }

  lemma {:induction false} ParseUndoesEncodeNamed(e: Entry, tail: Bytes, level: nat, limit: int)
    requires |e.name| < Pow256(2) && WellFormed(e.value) && Fits(CompoundDepth(e.value), level + 1, limit)
    ensures ParseEntry(TagOf(e.value), EncodeNamed(e) + tail, level, limit) == Ok(e, tail)
    decreases e, 0
  {
    TextRoundTrip(e.name, Encode(e.value) + tail);
    Regroup(ToBigEndian(|e.name|, 2) + e.name, Encode(e.value), tail);
    ParseUndoesEncode(e.value, tail, level + 1, limit);
  }

  // ---- only encodings parse ----

  lemma LeafAcceptsOnlyEncodings(tag: byte, s: Bytes)
    requires ValidTag(tag) && tag != TAG_LIST && tag != TAG_COMPOUND
    requires ParseLeaf(tag, s).Ok?
    ensures var Ok(t, rest) := ParseLeaf(tag, s); WellFormed(t) && s == Encode(t) + rest
  {
    hide ParseItems, EncodeItems, ToBigEndian, ParseInteger, Pow256;
    var Ok(t, rest) := ParseLeaf(tag, s);
    if KindOf(tag).Packed? {
      var width := KindOf(tag).width;
      var Ok(n, s1) := ParseInteger(4, s);
      Regroup(ToBigEndian(n, 4), EncodeItems(width, t.items), rest);
    }
  }

  /** Whatever parses is the encoding of the tree it parses to, which is well formed and within the limit. */
  lemma {:induction false} ParseAcceptsOnlyEncodings(tag: byte, s: Bytes, level: nat, limit: int)
    requires Parse(tag, s, level, limit).Ok?
    ensures var Ok(t, rest) := Parse(tag, s, level, limit);
      TagOf(t) == tag && WellFormed(t) && Fits(CompoundDepth(t), level, limit) && s == Encode(t) + rest
    decreases |s|, 2
  {
    if tag == TAG_LIST {
      ParseListAcceptsOnlyEncodings(s, level, limit);
    } else if tag == TAG_COMPOUND {
      ParseEntriesAcceptsOnlyEncodings(s, level, limit);
    } else {
      LeafAcceptsOnlyEncodings(tag, s);
    }
  }

  lemma {:induction false} ParseListAcceptsOnlyEncodings(s: Bytes, level: nat, limit: int)
    requires ParseList(s, level, limit).Ok?
    ensures var Ok(t, rest) := ParseList(s, level, limit);
      TagOf(t) == TAG_LIST && WellFormed(t) && Fits(CompoundDepth(t), level, limit) && s == Encode(t) + rest
    decreases |s|, 0
  {
    var Ok(t, rest) := ParseList(s, level, limit);
    var Ok(header, s1) := ParseListHeader(s);
    if header.1 > 0 {
      ParseElemsAcceptsOnlyEncodings(header.0, header.1, s1, level, limit);
    }
    assert header.1 == 0 ==> s1 == EncodeElems(header.0, []) + rest;
    Regroup([header.0] + ToBigEndian(header.1, 4), EncodeElems(header.0, t.elems), rest);
  }

  lemma {:induction false} ParseElemsAcceptsOnlyEncodings(tag: byte, n: nat, s: Bytes, level: nat, limit: int)
    requires ParseElems(tag, n, s, level, limit).Ok?
    ensures var Ok(elems, rest) := ParseElems(tag, n, s, level, limit);
      && WellFormedElems(tag, elems)
      && Fits(ElemsDepth(elems), level, limit) && s == EncodeElems(tag, elems) + rest
    decreases |s|, 3
  {
    if n == 0 {
      assert [] + s == s;
    } else {
      var Ok(elem, s1) := Parse(tag, s, level, limit);
      var Ok(elems, rest) := ParseElems(tag, n - 1, s1, level, limit);
      ParseAcceptsOnlyEncodings(tag, s, level, limit);
      ParseElemsAcceptsOnlyEncodings(tag, n - 1, s1, level, limit);
      ElemInFront(tag, elem, elems, rest);
    }
  }

  lemma {:induction false} ParseEntriesAcceptsOnlyEncodings(s: Bytes, level: nat, limit: int)
    requires ParseEntries(s, level, limit).Ok? && (limit > 0 ==> level < limit)
    ensures var Ok(entries, rest) := ParseEntries(s, level, limit);
      && WellFormedEntries(entries)
      && Fits(1 + EntriesDepth(entries), level, limit) && s == EncodeEntries(entries) + rest
    decreases |s|, 0
  {
    var Ok(tag, s1) := ParseByte(s);
    if tag != TAG_END {
      var Ok(e, s2) := ParseEntry(tag, s1, level, limit);
      var Ok(entries, rest) := ParseEntries(s2, level, limit);
      ParseEntryAcceptsOnlyEncodings(tag, s1, level, limit);
      ParseEntriesAcceptsOnlyEncodings(s2, level, limit);
      EntryInFront(e, entries, rest);
      Regroup([tag], EncodeNamed(e), s2);
    }
  }

  lemma {:induction false} ParseEntryAcceptsOnlyEncodings(tag: byte, s: Bytes, level: nat, limit: int)
    requires ParseEntry(tag, s, level, limit).Ok?
    ensures var Ok(e, rest) := ParseEntry(tag, s, level, limit);
      && |e.name| < Pow256(2) && WellFormed(e.value) && TagOf(e.value) == tag && TagOf(e.value) != TAG_END
      && Fits(CompoundDepth(e.value), level + 1, limit) && s == EncodeNamed(e) + rest
    decreases |s|, 0
  {
    var Ok(name, s1) := ParseText(s);
    var Ok(value, rest) := Parse(tag, s1, level + 1, limit);
    ParseAcceptsOnlyEncodings(tag, s1, level + 1, limit);
    Regroup(ToBigEndian(|name|, 2) + name, Encode(value), rest);
  }

  /** With a limit in force, a well-formed tree is accepted exactly when no path nests more compounds than fit. */
  lemma DepthLimitIsExact(t: Nbt, tail: Bytes, level: nat, limit: int)
    requires WellFormed(t)
    ensures Parse(TagOf(t), Encode(t) + tail, level, limit).Ok? <==> Fits(CompoundDepth(t), level, limit)
  {
    var s := Encode(t) + tail;
    if Fits(CompoundDepth(t), level, limit) {
      ParseUndoesEncode(t, tail, level, limit);
    }
    if Parse(TagOf(t), s, level, limit).Ok? {
      var Ok(u, rest) := Parse(TagOf(t), s, level, limit);
      ParseAcceptsOnlyEncodings(TagOf(t), s, level, limit);
      ParseUndoesEncode(u, rest, level, 0);
      ParseUndoesEncode(t, tail, level, 0);
    }
  }
}
