/** What decoding means for a caller: whole documents, skipping, struct targets and number widths. */
module NbtTheorems {
  import opened Options
  import opened Bytes
  import opened NbtFormat
  import opened NbtTarget

  // ---- skipping and decoding ----

  /** If a tag can be decoded into some target, it can be skipped, and skipping consumes the same bytes. */
  lemma SkipAgreesWithDecode(tag: byte, s: Bytes, v: Target, level: nat, limit: int)
    requires WellTyped(v)
    requires DecodeAs(tag, s, v, level, limit).Ok?
    ensures DecodeAs(tag, s, Skip, level, limit) == Ok(Skip, DecodeAs(tag, s, v, level, limit).rest)
  {
    DecodeIsParseThenStore(tag, s, v, level, limit);
    DecodeIsParseThenStore(tag, s, Skip, level, limit);
  }

  // ---- whole documents ----

  /** `decode`: the tag, a name that is thrown away even when it cannot be read, and the payload. */
  function DecodeDocument(s: Bytes, v: Target, limit: int): (r: Reading<Target>)
    requires WellTyped(v)
  {
    var (tag, s1) :- ParseByte(s);
    var name := ParseText(s1);
    DecodeAs(tag, if name.Ok? then name.rest else [], v, 0, limit)
  }

  function EncodeDocument(name: Bytes, t: Nbt): Bytes
    requires |name| < Pow256(2) && WellFormed(t)
  {
    EncodeEntry(Entry(name, t))
  }

  /**
   Decoding an encoded document, whatever follows it, succeeds exactly when its compounds nest no
   deeper than the limit and it matches the target; it then stores the tree and leaves what follows.
   */
  lemma DecodeUndoesEncode(name: Bytes, t: Nbt, tail: Bytes, v: Target, limit: int)
    requires |name| < Pow256(2) && WellFormed(t) && WellTyped(v)
    ensures var d := DecodeDocument(EncodeDocument(name, t) + tail, v, limit);
      && (d.Ok? <==> Fits(CompoundDepth(t), 0, limit) && Store(t, v).Some?)
      && (d.Ok? ==> d == Ok(Store(t, v).value, tail))
  {
    var s := EncodeDocument(name, t) + tail;
    assert s[1..] == EncodeNamed(Entry(name, t)) + tail;
    Regroup(ToBigEndian(|name|, 2) + name, Encode(t), tail);
    TextRoundTrip(name, Encode(t) + tail);
    DecodeIsParseThenStore(TagOf(t), Encode(t) + tail, v, 0, limit);
    DepthLimitIsExact(t, tail, 0, limit);
    if Fits(CompoundDepth(t), 0, limit) {
      ParseUndoesEncode(t, tail, 0, limit);
    }
  }

  /** Nothing but an encoded document within the limit decodes. */
  lemma DecodeAcceptsOnlyDocuments(s: Bytes, v: Target, limit: int) returns (name: Bytes, t: Nbt)
    requires WellTyped(v)
    ensures var d := DecodeDocument(s, v, limit);
      d.Ok? ==>
        && |name| < Pow256(2) && WellFormed(t) && Fits(CompoundDepth(t), 0, limit)
        && s == EncodeDocument(name, t) + d.rest
  {
    name, t := [], Text([]);
    var d := DecodeDocument(s, v, limit);
    if d.Ok? {
      var Ok(tag, s1) := ParseByte(s);
      var parsed := ParseText(s1);
      if parsed.Fail? {
        assert false;
      } else {
        DecodeIsParseThenStore(tag, parsed.rest, v, 0, limit);
        ParseAcceptsOnlyEncodings(tag, parsed.rest, 0, limit);
        name, t := parsed.value, Parse(tag, parsed.rest, 0, limit).value;
        Regroup(ToBigEndian(|name|, 2) + name, Encode(t), d.rest);
        Regroup([tag], EncodeNamed(Entry(name, t)), d.rest);
      }
    }
  }

  // ---- struct targets ----

  predicate DistinctNames(entries: seq<Entry>) {
    forall i, j | 0 <= i < j < |entries| :: entries[i].name != entries[j].name
  }

  function EntryNamed(entries: seq<Entry>, name: Bytes): (r: Option<Nbt>)
    ensures r.Some? ==> Entry(name, r.value) in entries
    ensures r.None? ==> forall i | 0 <= i < |entries| :: entries[i].name != name
  {
    if entries == [] then None
    else if entries[0].name == name then Some(entries[0].value)
    else EntryNamed(entries[1..], name)
  }

  /** Entry `e` either has no field in the target or matches the field it has. */
  predicate Matches(e: Entry, v: Target)
    requires WellTyped(v) && v.Into? && v.ty.StructType?
  {
    WellFormed(e.value) && Store(e.value, FieldTarget(v, e.name)).Some?
  }

  /** Field `i` after projecting the entries onto the struct: the entry with the field's key, if there is one. */
  function ProjectedField(entries: seq<Entry>, v: Target, i: nat): GoVal
    requires WellTyped(v) && v.Into? && v.ty.StructType? && i < |v.ty.fields|
  {
    var key := KeyOf(v.ty.fields[i]);
    var entry := EntryNamed(entries, key);
    if FieldIndex(v.ty.fields, key) == Some(i) && entry.Some? && Matches(Entry(key, entry.value), v)
    then Store(entry.value, FieldTarget(v, key)).value.val
    else v.val.fields[i]
  }

  lemma OtherFieldsKept(e: Entry, t: Target, v: Target, name: Bytes)
    requires WellTyped(v) && v.Into? && v.ty.StructType?
    requires SameTarget(FieldTarget(v, e.name), t) && name != e.name
    ensures FieldTarget(SetField(v, e.name, t), name) == FieldTarget(v, name)
  {
  }

  /** A compound with distinct names goes into a struct exactly when every entry matches the field it names, if any. */
  lemma {:induction false} StructTargetAccepts(entries: seq<Entry>, v: Target)
    requires WellFormedEntries(entries) && DistinctNames(entries)
    requires WellTyped(v) && v.Into? && v.ty.StructType?
    ensures StoreEntries(entries, v).Some? <==> forall e | e in entries :: Matches(e, v)
  {
    if entries != [] {
      var e := entries[0];
      var first := Store(e.value, FieldTarget(v, e.name));
      assert Matches(e, v) <==> first.Some?;
      if first.Some? {
        var w := SetField(v, e.name, first.value);
        StructTargetAccepts(entries[1..], w);
        forall x | x in entries[1..]
          ensures Matches(x, w) <==> Matches(x, v)
        {
          OtherFieldsKept(e, first.value, v, x.name);
        }
      }
    }
  }

  /** When it does, every field of the struct holds the projection of the compound onto that field. */
  lemma {:induction false} StructTargetIsProjection(entries: seq<Entry>, v: Target, i: nat)
    requires WellFormedEntries(entries) && DistinctNames(entries)
    requires WellTyped(v) && v.Into? && v.ty.StructType? && i < |v.ty.fields|
    requires StoreEntries(entries, v).Some?
    ensures StoreEntries(entries, v).value.val.fields[i] == ProjectedField(entries, v, i)
  {
    if entries != [] {
      var e, key := entries[0], KeyOf(v.ty.fields[i]);
      var first := Store(e.value, FieldTarget(v, e.name));
      StructTargetIsProjection(entries[1..], SetField(v, e.name, first.value), i);
      if key != e.name {
        OtherFieldsKept(e, first.value, v, key);
      } else {
        assert EntryNamed(entries[1..], key).None?;
      }
    }
  }

  // ---- number widths ----

  lemma PowersGrow(a: nat, b: nat)
    requires a <= b
    ensures Pow256(a) <= Pow256(b)
    decreases b
  {
    if a < b {
      PowersGrow(a, b - 1);
    }
  }

  /** A number keeps its value in any Go integer at least as wide as its tag. */
  lemma WideEnoughKeepsValue(bits: nat, width: nat, kind: IntKind)
    requires 1 <= width <= IntWidth(kind) && bits < Pow256(width)
    ensures Truncated(Signed(bits, width), IntWidth(kind)) == Signed(bits, width)
  {
    PowersGrow(width, IntWidth(kind));
    TruncationKeepsSmall(Signed(bits, width), IntWidth(kind));
  }

  lemma TruncationKeepsSmall(x: int, width: nat)
    requires 0 <= 2 * x + Pow256(width) && 2 * x < Pow256(width)
    ensures Truncated(x, width) == x
  {
    Modulo(x, Pow256(width));
  }

  lemma Modulo(x: int, m: int)
    requires m > 0 && -m <= x < m
    ensures x % m == if x < 0 then x + m else x
  {
  }
}
