/**
 Decoding into a Go value. A target is what a reader gets as its `*reflect.Value`: nothing, when
 the tag is to be skipped, or a Go type and the value stored there so far.
 */
module NbtTarget {
  import opened Options
  import opened Bytes
  import opened NbtFormat

  datatype IntKind = Int8 | Int16 | Int32 | Int64 | IntWord

  datatype GoType =
    | IntType(kind: IntKind)
    | FloatType
    | StringType
    | Uint8Type
    | SliceType(elem: GoType)
    | StructType(fields: seq<Field>)
    | OtherType

  /** A struct field: its Go name, its `nbt` key (empty if it has none) and its type. */
  datatype Field = Field(name: Bytes, tag: Bytes, ty: GoType)

  datatype GoVal =
    | IntVal(i: int)
    | FloatVal(width: nat, bits: nat)
    | StringVal(bytes: Bytes)
    | Uint8Val(u: nat)
    | SliceVal(elems: seq<GoVal>)
    | StructVal(fields: seq<GoVal>)
    | OtherVal

  datatype Target = Skip | Into(ty: GoType, val: GoVal)

  predicate HasType(val: GoVal, ty: GoType)
    decreases ty
  {
    match ty
    case IntType(_) => val.IntVal?
    case FloatType => val.FloatVal?
    case StringType => val.StringVal?
    case Uint8Type => val.Uint8Val?
    case SliceType(elem) => val.SliceVal? && forall i | 0 <= i < |val.elems| :: HasType(val.elems[i], elem)
    case StructType(fields) =>
      && val.StructVal? && |val.fields| == |fields|
      && forall i | 0 <= i < |fields| :: HasType(val.fields[i], fields[i].ty)
    case OtherType => val.OtherVal?
  }

  predicate WellTyped(v: Target) {
    v.Into? ==> HasType(v.val, v.ty)
  }

  /** `w` is the target `v` with another value in it. */
  predicate SameTarget(v: Target, w: Target) {
    if v.Skip? then w.Skip? else w.Into? && w.ty == v.ty && HasType(w.val, w.ty)
  }

  /** The zero value of a Go type, which every new list element starts from. */
  function Zero(ty: GoType): (val: GoVal)
    ensures HasType(val, ty)
    decreases ty
  {
    match ty
    case IntType(_) => IntVal(0)
    case FloatType => FloatVal(8, 0)
    case StringType => StringVal([])
    case Uint8Type => Uint8Val(0)
    case SliceType(_) => SliceVal([])
    case StructType(fields) => StructVal(seq(|fields|, i requires 0 <= i < |fields| => Zero(fields[i].ty)))
    case OtherType => OtherVal
  }

  function IntWidth(kind: IntKind): nat {
    match kind
    case Int8 => 1
    case Int16 => 2
    case Int32 => 4
    case Int64 => 8
    case IntWord => 8
  }

  function KeyOf(f: Field): Bytes { if f.tag == [] then f.name else f.tag }

  /** The field a name is stored in: the last one with that key. */
  function FieldIndex(fields: seq<Field>, name: Bytes): (r: Option<nat>)
    ensures r.Some? ==> r.value < |fields| && KeyOf(fields[r.value]) == name
    ensures forall j | 0 <= j < |fields| && KeyOf(fields[j]) == name :: r.Some? && j <= r.value
  {
    if fields == [] then None
    else
      var last := |fields| - 1;
      if KeyOf(fields[last]) == name then Some(last) else FieldIndex(fields[..last], name)
  }

  /** Where the value of a compound entry goes. */
  function FieldTarget(v: Target, name: Bytes): (t: Target)
    requires WellTyped(v) && (v.Into? ==> v.ty.StructType?)
    ensures WellTyped(t)
  {
    if v.Skip? || FieldIndex(v.ty.fields, name).None? then Skip
    else
      var i := FieldIndex(v.ty.fields, name).value;
      Into(v.ty.fields[i].ty, v.val.fields[i])
  }

  function SetField(v: Target, name: Bytes, t: Target): (w: Target)
    requires WellTyped(v) && (v.Into? ==> v.ty.StructType?) && SameTarget(FieldTarget(v, name), t)
    ensures SameTarget(v, w)
  {
    if t.Skip? then v
    else v.(val := StructVal(v.val.fields[FieldIndex(v.ty.fields, name).value := t.val]))
  }

  // ---- storing a full tree ----

  function Uint8Vals(items: seq<nat>): seq<GoVal> {
    seq(|items|, i requires 0 <= i < |items| => Uint8Val(items[i]))
  }

  function IntVals(items: seq<nat>, width: nat): seq<GoVal> {
    seq(|items|, i requires 0 <= i < |items| => IntVal(Signed(items[i], width)))
  }

  /** What `SetInt`, `SetFloat`, `Set` and `SetString` make of a tag without children. */
  function StoreLeaf(t: Nbt, v: Target): (r: Option<Target>)
    requires WellTyped(v) && !t.List? && !t.Compound? && (t.Leaf? || t.Array? ==> ValidTag(t.tag))
    ensures r.Some? ==> SameTarget(v, r.value)
    ensures v.Skip? ==> r == Some(Skip)
  {
    if v.Skip? then Some(Skip)
    else match t
      case Leaf(tag, bits) =>
        var kind := KindOf(tag);
        if kind.Integral? && v.ty.IntType? then
          Some(v.(val := IntVal(Truncated(Signed(bits, kind.width), IntWidth(v.ty.kind)))))
        else if kind.Floating? && v.ty.FloatType? then Some(v.(val := FloatVal(kind.width, bits)))
        else None
      case Array(tag, items) =>
        var kind := KindOf(tag);
        if kind == Packed(1) && v.ty == SliceType(Uint8Type) then
          Some(v.(val := SliceVal(Uint8Vals(items))))
        else if kind == Packed(4) && v.ty == SliceType(IntType(Int32)) then
          Some(v.(val := SliceVal(IntVals(items, 4))))
        else if kind == Packed(8) && v.ty == SliceType(IntType(Int64)) then
          Some(v.(val := SliceVal(IntVals(items, 8))))
        else None
      case Text(bytes) => if v.ty.StringType? then Some(v.(val := StringVal(bytes))) else None
  }

  /** Storing a parsed tree in a target: None where some part of it does not match the target's type. */
  function Store(t: Nbt, v: Target): (r: Option<Target>)
    requires WellTyped(v) && WellFormed(t)
    ensures r.Some? ==> SameTarget(v, r.value)
    ensures v.Skip? ==> r == Some(Skip)
    decreases t, 0
  {
    if v.Skip? then Some(Skip)
    else match t
      case List(elemTag, elems) =>
        if elems == [] then Some(v)
        else if !v.ty.SliceType? then None
        else
          var stored := StoreElems(elemTag, elems, v.ty.elem);
          if stored.None? then None else Some(v.(val := SliceVal(stored.value)))
      case Compound(entries) => if !v.ty.StructType? then None else StoreEntries(entries, v)
      case _ => StoreLeaf(t, v)
  }

  function StoreElems(tag: byte, elems: seq<Nbt>, ty: GoType): (r: Option<seq<GoVal>>)
    requires WellFormedElems(tag, elems)
    ensures r.Some? ==> |r.value| == |elems| && forall i | 0 <= i < |elems| :: HasType(r.value[i], ty)
    decreases elems, 1
  {
    if elems == [] then Some([])
    else
      var first, others := Store(elems[0], Into(ty, Zero(ty))), StoreElems(tag, elems[1..], ty);
      if first.None? || others.None? then None else Some([first.value.val] + others.value)
  }

  function StoreEntries(entries: seq<Entry>, v: Target): (r: Option<Target>)
    requires WellFormedEntries(entries) && WellTyped(v) && (v.Into? ==> v.ty.StructType?)
    ensures r.Some? ==> SameTarget(v, r.value)
    ensures v.Skip? ==> r == Some(Skip)
    decreases entries, 1
  {
    if entries == [] then Some(v)
    else
      var first := Store(entries[0].value, FieldTarget(v, entries[0].name));
      if first.None? then None else StoreEntries(entries[1..], SetField(v, entries[0].name, first.value))
  }

  // ---- decoding straight into a target, as the readers do ----

  function DecodeAs(tag: byte, s: Bytes, v: Target, level: nat, limit: int): (r: Reading<Target>)
    requires WellTyped(v)
    ensures r.Ok? ==> SameTarget(v, r.value) && |r.rest| < |s|
    decreases |s|, 2
  {
    if !ValidTag(tag) then Fail(InvalidTag)
    else if tag == TAG_LIST then DecodeList(s, v, level, limit)
    else if tag == TAG_COMPOUND then DecodeCompound(s, v, level, limit)
    else DecodeLeaf(tag, s, v)
  }

  function DecodeLeaf(tag: byte, s: Bytes, v: Target): (r: Reading<Target>)
    requires ValidTag(tag) && tag != TAG_LIST && tag != TAG_COMPOUND && WellTyped(v)
    ensures r.Ok? ==> SameTarget(v, r.value) && |r.rest| < |s|
  {
    var (t, rest) :- ParseLeaf(tag, s);
    var stored := StoreLeaf(t, v);
    if stored.None? then Fail(TypeMismatch) else Ok(stored.value, rest)
  }

  function DecodeList(s: Bytes, v: Target, level: nat, limit: int): (r: Reading<Target>)
    requires WellTyped(v)
    ensures r.Ok? ==> SameTarget(v, r.value) && |r.rest| < |s|
    decreases |s|, 0
  {
    var (header, s1) :- ParseListHeader(s);
    if header.1 == 0 then Ok(v, s1)
    else if !ValidTag(header.0) then Fail(InvalidTag)
    else if v.Skip? then
      var (_, rest) :- DecodeElems(header.0, header.1, s1, Skip, level, limit, []);
      Ok(Skip, rest)
    else if !v.ty.SliceType? then Fail(TypeMismatch)
    else
      var elem := Into(v.ty.elem, Zero(v.ty.elem));
      var (vals, rest) :- DecodeElems(header.0, header.1, s1, elem, level, limit, []);
      Ok(v.(val := SliceVal(vals)), rest)
  }

  /** Values that elements like `elem` can have appended. */
  predicate Collected(acc: seq<GoVal>, elem: Target) {
    elem.Into? ==> forall i | 0 <= i < |acc| :: HasType(acc[i], elem.ty)
  }

  /** The element loop, with the values appended so far; a skipped list appends none. */
  function DecodeElems(tag: byte, n: nat, s: Bytes, elem: Target, level: nat, limit: int, acc: seq<GoVal>)
    : (r: Reading<seq<GoVal>>)
    requires WellTyped(elem)
    requires Collected(acc, elem)
    ensures r.Ok? ==> |r.rest| <= |s|
    ensures r.Ok? ==> Collected(r.value, elem)
    decreases |s|, 3
  {
    if n == 0 then Ok(acc, s)
    else
      var (v, s1) :- DecodeAs(tag, s, elem, level, limit);
      DecodeElems(tag, n - 1, s1, elem, level, limit, if v.Skip? then acc else acc + [v.val])
  }

  function DecodeCompound(s: Bytes, v: Target, level: nat, limit: int): (r: Reading<Target>)
    requires WellTyped(v)
    ensures r.Ok? ==> SameTarget(v, r.value) && |r.rest| < |s|
    decreases |s|, 1
  {
    if limit > 0 && level >= limit then Fail(LevelLimit)
    else if v.Into? && !v.ty.StructType? then Fail(NotStruct)
    else DecodeEntries(s, v, level, limit)
  }

  function DecodeEntries(s: Bytes, v: Target, level: nat, limit: int): (r: Reading<Target>)
    requires WellTyped(v) && (v.Into? ==> v.ty.StructType?)
    ensures r.Ok? ==> SameTarget(v, r.value) && |r.rest| < |s|
    decreases |s|, 0
  {
    var (tag, s1) :- ParseByte(s);
    if tag == TAG_END then Ok(v, s1)
    else
      var (v1, s2) :- DecodeEntry(tag, s1, v, level, limit);
      DecodeEntries(s2, v1, level, limit)
  }

  function DecodeEntry(tag: byte, s: Bytes, v: Target, level: nat, limit: int): (r: Reading<Target>)
    requires WellTyped(v) && (v.Into? ==> v.ty.StructType?)
    ensures r.Ok? ==> SameTarget(v, r.value) && |r.rest| < |s|
    decreases |s|, 0
  {
    var (name, s1) :- ParseText(s);
    var (t, rest) :- DecodeAs(tag, s1, FieldTarget(v, name), level + 1, limit);
    Ok(SetField(v, name, t), rest)
  }

  // ---- decoding is parsing and then storing ----

  /** `d` is what parsing with result `p` and then storing the tree in `v` gives. */
  predicate IsParseThenStore(p: Reading<Nbt>, d: Reading<Target>, v: Target)
    requires WellTyped(v)
  {
    && (p.Ok? ==> WellFormed(p.value))
    && (d.Ok? <==> p.Ok? && Store(p.value, v).Some?)
    && (d.Ok? ==> d == Ok(Store(p.value, v).value, p.rest))
  }

  /**
   For every input and every target: decoding succeeds exactly when the whole tag parses and its
   tree can be stored, leaves the same bytes, and puts there what storing the tree puts there.
   */
  lemma {:induction false} DecodeIsParseThenStore(tag: byte, s: Bytes, v: Target, level: nat, limit: int)
    requires WellTyped(v)
    ensures IsParseThenStore(Parse(tag, s, level, limit), DecodeAs(tag, s, v, level, limit), v)
    decreases |s|, 2
  {
    var p := Parse(tag, s, level, limit);
    if p.Ok? {
      ParseAcceptsOnlyEncodings(tag, s, level, limit);
    }
    if tag == TAG_LIST {
      DecodeListIsParseThenStore(s, v, level, limit);
    } else if tag == TAG_COMPOUND {
      DecodeCompoundIsParseThenStore(s, v, level, limit);
    }
  }

  lemma {:induction false} DecodeListIsParseThenStore(s: Bytes, v: Target, level: nat, limit: int)
    requires WellTyped(v)
    ensures IsParseThenStore(ParseList(s, level, limit), DecodeList(s, v, level, limit), v)
    decreases |s|, 0
  {
    var p := ParseList(s, level, limit);
    if p.Ok? {
      ParseListAcceptsOnlyEncodings(s, level, limit);
    }
    var h := ParseListHeader(s);
    if h.Ok? && h.value.1 > 0 && ValidTag(h.value.0) {
      if v.Skip? {
        DecodeElemsIsParseThenStore(h.value.0, h.value.1, h.rest, Skip, level, limit, []);
      } else if v.ty.SliceType? {
        var elem := Into(v.ty.elem, Zero(v.ty.elem));
        DecodeElemsIsParseThenStore(h.value.0, h.value.1, h.rest, elem, level, limit, []);
        if p.Ok? {
          var stored := StoreElems(h.value.0, p.value.elems, elem.ty);
          assert stored.Some? ==> [] + stored.value == stored.value;
        }
      }
    }
  }

  lemma {:induction false} DecodeElemsIsParseThenStore(
    tag: byte, n: nat, s: Bytes, elem: Target, level: nat, limit: int, acc: seq<GoVal>)
    requires elem == Skip || (elem.Into? && elem.val == Zero(elem.ty))
    requires Collected(acc, elem)
    ensures var p, d := ParseElems(tag, n, s, level, limit), DecodeElems(tag, n, s, elem, level, limit, acc);
      && (p.Ok? ==> WellFormedElems(tag, p.value))
      && (d.Ok? <==> p.Ok? && (elem.Into? ==> StoreElems(tag, p.value, elem.ty).Some?))
      && (d.Ok? ==> d.rest == p.rest)
      && (d.Ok? && elem.Into? ==> d.value == acc + StoreElems(tag, p.value, elem.ty).value)
    decreases |s|, 3
  {
    hide Parse, DecodeAs, EncodeElems, Encode, Store, WellFormed;
    if ParseElems(tag, n, s, level, limit).Ok? {
      ParseElemsAcceptsOnlyEncodings(tag, n, s, level, limit);
    }
    if n > 0 {
      DecodeIsParseThenStore(tag, s, elem, level, limit);
      var p, d := Parse(tag, s, level, limit), DecodeAs(tag, s, elem, level, limit);
      if d.Ok? {
        var acc' := if d.value.Skip? then acc else acc + [d.value.val];
        DecodeElemsIsParseThenStore(tag, n - 1, d.rest, elem, level, limit, acc');
      }
      if p.Ok? {
        var ps := ParseElems(tag, n - 1, p.rest, level, limit);
        if ps.Ok? && elem.Into? {
          StoreElemInFront(tag, p.value, ps.value, elem.ty, acc);
        }
      }
    }
  }

  lemma StoreElemInFront(tag: byte, t: Nbt, ts: seq<Nbt>, ty: GoType, acc: seq<GoVal>)
    requires WellFormedElems(tag, [t] + ts)
    ensures WellFormed(t) && WellFormedElems(tag, ts)
    ensures var first, others, all := Store(t, Into(ty, Zero(ty))), StoreElems(tag, ts, ty), StoreElems(tag, [t] + ts, ty);
      && (all.Some? <==> first.Some? && others.Some?)
      && (all.Some? ==> acc + all.value == acc + [first.value.val] + others.value)
  {
    assert ([t] + ts)[1..] == ts;
  }

  lemma {:induction false} DecodeCompoundIsParseThenStore(s: Bytes, v: Target, level: nat, limit: int)
    requires WellTyped(v)
    ensures IsParseThenStore(ParseCompound(s, level, limit), DecodeCompound(s, v, level, limit), v)
    decreases |s|, 1
  {
    if !(limit > 0 && level >= limit) {
      var p := ParseEntries(s, level, limit);
      if p.Ok? {
        ParseEntriesAcceptsOnlyEncodings(s, level, limit);
      }
      if v.Into? ==> v.ty.StructType? {
        DecodeEntriesIsParseThenStore(s, v, level, limit);
      }
    }
  }

  lemma {:induction false} DecodeEntriesIsParseThenStore(s: Bytes, v: Target, level: nat, limit: int)
    requires WellTyped(v) && (v.Into? ==> v.ty.StructType?) && (limit > 0 ==> level < limit)
    ensures var p, d := ParseEntries(s, level, limit), DecodeEntries(s, v, level, limit);
      && (p.Ok? ==> WellFormedEntries(p.value))
      && (d.Ok? <==> p.Ok? && StoreEntries(p.value, v).Some?)
      && (d.Ok? ==> d == Ok(StoreEntries(p.value, v).value, p.rest))
    decreases |s|, 0
  {
    hide Parse, DecodeAs, EncodeEntries, Encode, Store, WellFormed, HasType, Pow256;
    var p := ParseEntries(s, level, limit);
    if p.Ok? {
      ParseEntriesAcceptsOnlyEncodings(s, level, limit);
    }
    var t := ParseByte(s);
    if t.Ok? && t.value != TAG_END {
      var name := ParseText(t.rest);
      if name.Ok? {
        DecodeIsParseThenStore(t.value, name.rest, FieldTarget(v, name.value), level + 1, limit);
      }
      var d := DecodeEntry(t.value, t.rest, v, level, limit);
      if d.Ok? {
        DecodeEntriesIsParseThenStore(d.rest, d.value, level, limit);
      }
      if p.Ok? {
        assert p.value[1..] == ParseEntries(ParseEntry(t.value, t.rest, level, limit).rest, level, limit).value;
      }
    }
  }
}
