/** The decoder itself: it consumes its reader in place and fills in the target as it goes. */
module NbtDecoder {
  import opened Options
  import opened Bytes
  import opened NbtFormat
  import opened NbtTarget
  import opened NbtTheorems

  datatype Result<+T> = Success(value: T) | Failure(error: Error)

  /** The outcome `res`, with `rest` left to read, is the one `reading` describes. */
  predicate Agrees<T(==)>(reading: Reading<T>, res: Result<T>, rest: Bytes) {
    match reading
    case Ok(value, s) => res == Success(value) && rest == s
    case Fail(error) => res == Failure(error)
  }

  /** Reading on with `now` after the items in `front` amounts to the reading `whole`. */
  predicate ReadsOn(whole: Reading<seq<nat>>, front: seq<nat>, now: Reading<seq<nat>>) {
    match now
    case Ok(items, rest) => whole == Ok(front + items, rest)
    case Fail(error) => whole == Fail(error)
  }

  lemma NoItemYet(whole: Reading<seq<nat>>)
    ensures ReadsOn(whole, [], whole)
  {
    assert whole.Ok? ==> [] + whole.value == whole.value;
  }

  lemma NextItem(whole: Reading<seq<nat>>, front: seq<nat>, width: nat, n: nat, s: Bytes)
    requires n > 0 && ReadsOn(whole, front, ParseItems(width, n, s))
    ensures match ParseInteger(width, s)
      case Ok(item, rest) => ReadsOn(whole, front + [item], ParseItems(width, n - 1, rest))
      case Fail(error) => whole == Fail(error)
  {
    var item := ParseInteger(width, s);
    if item.Ok? {
      var later := ParseItems(width, n - 1, item.rest);
      assert later.Ok? ==> front + ([item.value] + later.value) == front + [item.value] + later.value;
    }
  }

  lemma NextElem(tag: byte, n: nat, s: Bytes, elem: Target, level: nat, limit: int, acc: seq<GoVal>)
    requires n > 0 && WellTyped(elem)
    requires Collected(acc, elem)
    ensures var v, d := DecodeAs(tag, s, elem, level, limit), DecodeElems(tag, n, s, elem, level, limit, acc);
      match v
      case Ok(val, rest) =>
        d == DecodeElems(tag, n - 1, rest, elem, level, limit, if val.Skip? then acc else acc + [val.val])
      case Fail(error) => d == Fail(error)
  {
  }

  class Decoder {
    var r: Bytes
    const limit: int

    constructor (r: Bytes)
      ensures this.r == r && limit == 0
    {
      this.r := r;
      this.limit := 0;
    }

    constructor WithDepthLimit(r: Bytes, limit: int)
      ensures this.r == r && this.limit == limit
    {
      this.r := r;
      this.limit := limit;
    }

    method ReadByte() returns (res: Result<byte>)
      modifies this`r
      ensures Agrees(ParseByte(old(r)), res, r)
      ensures res.Failure? ==> r == []
    {
      if r == [] {
        return Failure(UnexpectedEOF);
      }
      res, r := Success(r[0]), r[1..];
    }

    /** `io.ReadFull`: a short read fails and takes what there was. */
    method ReadFull(n: nat) returns (res: Result<Bytes>)
      modifies this`r
      ensures Agrees(Take(n, old(r)), res, r)
      ensures res.Failure? ==> r == []
    {
      if |r| < n {
        r := [];
        return Failure(UnexpectedEOF);
      }
      res, r := Success(r[..n]), r[n..];
    }

    method ReadInteger(width: nat) returns (res: Result<nat>)
      modifies this`r
      ensures Agrees(ParseInteger(width, old(r)), res, r)
      ensures res.Failure? ==> r == []
    {
      var buf := ReadFull(width);
      if buf.Failure? {
        return Failure(buf.error);
      }
      res := Success(FromBigEndian(buf.value));
    }

    method ReadName() returns (res: Result<Bytes>)
      modifies this`r
      ensures Agrees(ParseText(old(r)), res, r)
      ensures res.Failure? ==> r == []
    {
      var nameLen := ReadInteger(2);
      if nameLen.Failure? {
        return Failure(nameLen.error);
      }
      res := ReadFull(nameLen.value);
    }

    /** `readByte`, `readShort`, `readInt`, `readLong`, `readFloat` and `readDouble`. */
    method ReadNumber(tag: byte, v: Target) returns (res: Result<Target>)
      requires ValidTag(tag) && (KindOf(tag).Integral? || KindOf(tag).Floating?) && WellTyped(v)
      modifies this`r
      ensures Agrees(DecodeLeaf(tag, old(r), v), res, r)
    {
      var kind := KindOf(tag);
      var bits := ReadInteger(kind.width);
      if bits.Failure? {
        return Failure(bits.error);
      }
      match v
      case Skip => res := Success(Skip);
      case Into(ty, _) =>
        if kind.Integral? && ty.IntType? {
          res := Success(Into(ty, IntVal(Truncated(Signed(bits.value, kind.width), IntWidth(ty.kind)))));
        } else if kind.Floating? && ty.FloatType? {
          res := Success(Into(ty, FloatVal(kind.width, bits.value)));
        } else {
          res := Failure(TypeMismatch);
        }
    }

    /** The element loop of the packed arrays. */
    method ReadItems(width: nat, n: nat) returns (res: Result<seq<nat>>)
      modifies this`r
      ensures Agrees(ParseItems(width, n, old(r)), res, r)
    {
      ghost var whole := ParseItems(width, n, r);
      var result: seq<nat> := [];
      NoItemYet(whole);
      for i := 0 to n
        invariant ReadsOn(whole, result, ParseItems(width, n - i, r))
      {
        hide ParseItems, ParseInteger;
        NextItem(whole, result, width, n - i, r);
        var item := ReadInteger(width);
        if item.Failure? {
          return Failure(item.error);
        }
        result := result + [item.value];
      }
      assert result + [] == result;
      res := Success(result);
    }

    /** `readByteArray`, `readIntArray` and `readLongArray`. */
    method ReadPacked(tag: byte, v: Target) returns (res: Result<Target>)
      requires ValidTag(tag) && KindOf(tag).Packed? && WellTyped(v)
      modifies this`r
      ensures Agrees(DecodeLeaf(tag, old(r), v), res, r)
    {
      hide ParseItems, ParseInteger, HasType, Uint8Vals, IntVals;
      var arrayLen := ReadInteger(4);
      if arrayLen.Failure? {
        return Failure(arrayLen.error);
      }
      var items := ReadItems(KindOf(tag).width, arrayLen.value);
      if items.Failure? {
        return Failure(items.error);
      }
      var xs := items.value;
      if v.Skip? {
        return Success(Skip);
      }
      if tag == 7 && v.ty == SliceType(Uint8Type) {
        res := Success(Into(v.ty, SliceVal(Uint8Vals(xs))));
      } else if tag == 11 && v.ty == SliceType(IntType(Int32)) {
        res := Success(Into(v.ty, SliceVal(IntVals(xs, 4))));
      } else if tag == 12 && v.ty == SliceType(IntType(Int64)) {
        res := Success(Into(v.ty, SliceVal(IntVals(xs, 8))));
      } else {
        res := Failure(TypeMismatch);
      }
    }

    method ReadString(v: Target) returns (res: Result<Target>)
      requires WellTyped(v)
      modifies this`r
      ensures Agrees(DecodeLeaf(8, old(r), v), res, r)
    {
      var value := ReadName();
      if value.Failure? {
        return Failure(value.error);
      }
      match v
      case Skip => res := Success(Skip);
      case Into(ty, _) =>
        res := if ty.StringType? then Success(Into(ty, StringVal(value.value))) else Failure(TypeMismatch);
    }

    method ReadList(v: Target, level: nat) returns (res: Result<Target>)
      requires WellTyped(v)
      modifies this`r
      ensures Agrees(DecodeList(old(r), v, level, limit), res, r)
      decreases |r|, 0
    {
      ghost var s := r;
      var ty := ReadByte();
      if ty.Failure? {
        return Failure(ty.error);
      }
      var listLen := ReadInteger(4);
      if listLen.Failure? {
        return Failure(listLen.error);
      }
      assert ParseListHeader(s) == Ok((ty.value, listLen.value), r);
      if listLen.value == 0 {
        return Success(v);
      }
      if !ValidTag(ty.value) {
        return Failure(InvalidTag);
      }
      if v.Skip? {
        var skipped := ReadElems(ty.value, listLen.value, Skip, level);
        return if skipped.Failure? then Failure(skipped.error) else Success(Skip);
      }
      if !v.ty.SliceType? {
        return Failure(TypeMismatch);
      }
      var slice := ReadElems(ty.value, listLen.value, Into(v.ty.elem, Zero(v.ty.elem)), level);
      res := if slice.Failure? then Failure(slice.error) else Success(v.(val := SliceVal(slice.value)));
    }

    /** The element loop of a list; skipped elements are not collected. */
    method ReadElems(tag: byte, n: nat, elem: Target, level: nat) returns (res: Result<seq<GoVal>>)
      requires WellTyped(elem)
      modifies this`r
      ensures Agrees(DecodeElems(tag, n, old(r), elem, level, limit, []), res, r)
      decreases |r|, 2
    {
      hide DecodeAs;
      ghost var size, whole := |r|, DecodeElems(tag, n, r, elem, level, limit, []);
      var slice: seq<GoVal> := [];
      for i := 0 to n
        invariant |r| <= size
        invariant Collected(slice, elem)
        invariant whole == DecodeElems(tag, n - i, r, elem, level, limit, slice)
      {
        NextElem(tag, n - i, r, elem, level, limit, slice);
        var value := ReadPayload(tag, elem, level);
        if value.Failure? {
          return Failure(value.error);
        }
        if value.value.Into? {
          slice := slice + [value.value.val];
        }
      }
      res := Success(slice);
    }

    /** `getStructFields`: which field each key is stored in; a later field with the same key wins. */
    static method GetStructFields(ty: GoType) returns (fields: map<Bytes, nat>)
      requires ty.StructType?
      ensures forall name :: name in fields <==> FieldIndex(ty.fields, name).Some?
      ensures forall name | name in fields :: FieldIndex(ty.fields, name) == Some(fields[name])
    {
      fields := map[];
      for i := 0 to |ty.fields|
        invariant forall name :: name in fields <==> FieldIndex(ty.fields[..i], name).Some?
        invariant forall name | name in fields :: FieldIndex(ty.fields[..i], name) == Some(fields[name])
      {
        var field := ty.fields[i];
        fields := fields[(if field.tag == [] then field.name else field.tag) := i];
        assert ty.fields[..i + 1][..i] == ty.fields[..i];
      }
      assert ty.fields[..|ty.fields|] == ty.fields;
    }

    method ReadCompound(v0: Target, level: nat) returns (res: Result<Target>)
      requires WellTyped(v0)
      modifies this`r
      ensures Agrees(DecodeCompound(old(r), v0, level, limit), res, r)
      decreases |r|, 0
    {
      if limit > 0 && level >= limit {
        return Failure(LevelLimit);
      }
      if v0.Into? && !v0.ty.StructType? {
        return Failure(NotStruct);
      }
      var fields := map[];
      if v0.Into? {
        fields := GetStructFields(v0.ty);
      }
      ghost var s := r;
      var v := v0;
      while true
        invariant |r| <= |s| && SameTarget(v0, v)
        invariant DecodeEntries(s, v0, level, limit) == DecodeEntries(r, v, level, limit)
        decreases |r|
      {
        var ty := ReadByte();
        if ty.Failure? {
          return Failure(ty.error);
        }
        if ty.value == TAG_END {
          break;
        }
        var next := ReadEntry(ty.value, v, fields, level);
        if next.Failure? {
          return Failure(next.error);
        }
        v := next.value;
      }
      res := Success(v);
    }

    /** One round of the compound loop, behind the entry's tag. */
    method ReadEntry(tag: byte, v: Target, fields: map<Bytes, nat>, level: nat) returns (res: Result<Target>)
      requires WellTyped(v) && (v.Into? ==> v.ty.StructType?)
      requires forall name | name in fields :: v.Into? && FieldIndex(v.ty.fields, name) == Some(fields[name])
      requires v.Into? ==> forall name :: FieldIndex(v.ty.fields, name).Some? ==> name in fields
      modifies this`r
      ensures Agrees(DecodeEntry(tag, old(r), v, level, limit), res, r)
      decreases |r|, 1
    {
      var name := ReadName();
      if name.Failure? {
        return Failure(name.error);
      }
      if !ValidTag(tag) {
        assert DecodeAs(tag, r, FieldTarget(v, name.value), level + 1, limit).Fail?;
        return Failure(InvalidTag);
      }
      var target := Skip;
      if name.value in fields {
        target := Into(v.ty.fields[fields[name.value]].ty, v.val.fields[fields[name.value]]);
      }
      var value := ReadPayload(tag, target, level + 1);
      if value.Failure? {
        return Failure(value.error);
      }
      if value.value.Skip? {
        return Success(v);
      }
      res := Success(v.(val := StructVal(v.val.fields[fields[name.value] := value.value.val])));
    }

    /** The reader `getTypeReader` chooses, run on the target. */
    method ReadPayload(tag: byte, v: Target, level: nat) returns (res: Result<Target>)
      requires WellTyped(v)
      modifies this`r
      ensures Agrees(DecodeAs(tag, old(r), v, level, limit), res, r)
      decreases |r|, 1
    {
      hide DecodeList, DecodeCompound, DecodeLeaf, Pow256, HasType;
      if !ValidTag(tag) {
        return Failure(InvalidTag);
      }
      if tag == TAG_LIST {
        res := ReadList(v, level);
      } else if tag == TAG_COMPOUND {
        res := ReadCompound(v, level);
      } else if tag == 8 {
        res := ReadString(v);
      } else if KindOf(tag).Packed? {
        res := ReadPacked(tag, v);
      } else {
        res := ReadNumber(tag, v);
      }
    }

    method Decode(v: Target) returns (res: Result<Target>)
      requires v.Into? && WellTyped(v)
      modifies this`r
      ensures Agrees(DecodeDocument(old(r), v, limit), res, r)
    {
      var nbtTy := ReadByte();
      if nbtTy.Failure? {
        return Failure(nbtTy.error);
      }
      var _ := ReadName();
      res := ReadPayload(nbtTy.value, v, 0);
    }
  }
}
