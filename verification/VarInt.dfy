/** Variable-length integers, seven bits a byte, lowest first: unsigned LEB128 (section 7.6 of DWARF version 5). */
module VarInt {
  import opened Bytes

  datatype ReadError = EndOfInput | TooLongVarInt | AddressTooLong | ConnectionError | Panic

  datatype Parsed<+T> = Got(value: T, rest: Bytes) | Bad(error: ReadError) {
    predicate IsFailure() { Bad? }
    function PropagateFailure<U>(): Parsed<U>
      requires Bad?
    {
      Bad(error)
    }
    function Extract(): (T, Bytes)
      requires Got?
    {
      (value, rest)
    }
  }

  /** 128 to the power `n`: the number of values in `n` groups of seven bits. */
  function Pow128(n: nat): (r: nat)
    ensures r > 0
  {
    if n == 0 then 1 else 128 * Pow128(n - 1)
  }

  const MAX_GROUPS := 5

  /** `readVarInt` from its group number `k` on: more than five groups are an error. */
  function ParseVarInt(s: Bytes, k: nat): (r: Parsed<nat>)
    requires k < MAX_GROUPS
    ensures r.Got? ==> |r.rest| < |s| && |s| - |r.rest| <= MAX_GROUPS - k
    decreases MAX_GROUPS - k
  {
    if s == [] then Bad(EndOfInput)
    else if s[0] < 128 then Got(s[0], s[1..])
    else if k + 1 == MAX_GROUPS then Bad(TooLongVarInt)
    else
      var (more, rest) :- ParseVarInt(s[1..], k + 1);
      Got(s[0] - 128 + 128 * more, rest)
  }

  /**
   The layout, byte by byte: seven bits each, the lowest first, up to a byte below 128, which is the
   fifth at the latest.
   */
  lemma VarIntLayout(b: byte, c: byte, d: byte, e: byte, last: byte, tail: Bytes)
    requires b >= 128 && c >= 128 && d >= 128 && e >= 128
    ensures last < 128 ==> ParseVarInt([last] + tail, 0) == Got(last, tail)
    ensures last < 128 ==> ParseVarInt([b] + ([last] + tail), 0) == Got((b - 128) + 128 * (last as int), tail)
    ensures last < 128 ==>
      ParseVarInt([b] + ([c] + ([last] + tail)), 0) == Got((b - 128) + 128 * (c as int - 128) + 16384 * (last as int), tail)
    ensures last < 128 ==>
      ParseVarInt([b] + ([c] + ([d] + ([last] + tail))), 0) ==
        Got((b - 128) + 128 * (c as int - 128) + 16384 * (d as int - 128) + 2097152 * (last as int), tail)
    ensures ParseVarInt([b] + ([c] + ([d] + ([e] + ([last] + tail)))), 0) ==
      if last >= 128 then Bad(TooLongVarInt)
      else
        Got((b - 128) + 128 * (c as int - 128) + 16384 * (d as int - 128) + 2097152 * (e as int - 128)
          + 268435456 * (last as int), tail)
  {
    hide ParseVarInt;
    forall x: byte, s: Bytes, k: nat | k < 5
      ensures ParseVarInt([x] + s, k) == After(x, s, k)
    {
      GroupAt(x, s, k);
    }
  }

  /** What a group in front makes of what follows. */
  function After(x: byte, s: Bytes, k: nat): Parsed<nat>
    requires k < 5
  {
    if x < 128 then Got(x, s)
    else if k == 4 then Bad(TooLongVarInt)
    else
      match ParseVarInt(s, k + 1)
      case Bad(error) => Bad(error)
      case Got(more, rest) => Got(x - 128 + 128 * more, rest)
  }

  lemma GroupAt(x: byte, s: Bytes, k: nat)
    requires k < 5
    ensures ParseVarInt([x] + s, k) == After(x, s, k)
  {
    assert ([x] + s)[1..] == s;
  }

  function EncodeVarInt(v: nat): (s: Bytes)
    ensures |s| > 0
  {
    if v < 128 then [v] else [v % 128 + 128] + EncodeVarInt(v / 128)
  }

  lemma {:induction false} ReadUndoesWriteFrom(v: nat, tail: Bytes, k: nat)
    requires k < MAX_GROUPS
    ensures ParseVarInt(EncodeVarInt(v) + tail, k) ==
      if v < Pow128(MAX_GROUPS - k) then Got(v, tail) else Bad(TooLongVarInt)
    decreases v
  {
    var s := EncodeVarInt(v) + tail;
    if v < 128 {
      assert s[1..] == tail;
      assert 128 <= Pow128(MAX_GROUPS - k);
    } else {
      assert s[0] == v % 128 + 128 && s[1..] == EncodeVarInt(v / 128) + tail;
      if k + 1 < MAX_GROUPS {
        ReadUndoesWriteFrom(v / 128, tail, k + 1);
        assert v < 128 * Pow128(MAX_GROUPS - k - 1) <==> v / 128 < Pow128(MAX_GROUPS - k - 1);
      } else {
        assert Pow128(1) == 128;
      }
    }
  }

  /** Reading what was written gives the value back and leaves what follows, exactly for values below 2^35. */
  lemma ReadUndoesWrite(v: nat, tail: Bytes)
    ensures ParseVarInt(EncodeVarInt(v) + tail, 0) == if v < 0x8_0000_0000 then Got(v, tail) else Bad(TooLongVarInt)
  {
    ReadUndoesWriteFrom(v, tail, 0);
    assert Pow128(MAX_GROUPS) == 0x8_0000_0000;
  }

  /** No accepted encoding of a value is shorter than the one written. */
  lemma {:induction false} WriteIsShortest(s: Bytes, k: nat)
    requires k < MAX_GROUPS && ParseVarInt(s, k).Got?
    ensures |EncodeVarInt(ParseVarInt(s, k).value)| <= |s| - |ParseVarInt(s, k).rest|
    decreases MAX_GROUPS - k
  {
    if s[0] >= 128 {
      WriteIsShortest(s[1..], k + 1);
      var more := ParseVarInt(s[1..], k + 1).value;
      assert (s[0] - 128 + 128 * more) / 128 == more;
    }
  }

  /** `writeVarInt`: terminates because the value shrinks. */
  method WriteVarInt(value: nat) returns (out: Bytes)
    ensures out == EncodeVarInt(value)
  {
    var v := value;
    out := [];
    while v >= 128
      invariant EncodeVarInt(value) == out + EncodeVarInt(v)
      decreases v
    {
      Regroup(out, [v % 128 + 128], EncodeVarInt(v / 128));
      out := out + [v % 128 + 128];
      v := v / 128;
    }
    out := out + [v];
  }
}
