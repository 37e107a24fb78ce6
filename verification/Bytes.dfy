/** Byte strings and the fixed-width big-endian integers both binary protocols use. */
module Bytes {
  type byte = x: int | 0 <= x < 256
  type Bytes = seq<byte>

  /** 256 to the power `n`: the number of values that fit in `n` bytes. */
  function Pow256(n: nat): (r: nat)
    ensures r > 0
    ensures n > 0 ==> r % 256 == 0
  {
    if n == 0 then 1 else 256 * Pow256(n - 1)
  }

  function FromBigEndian(s: Bytes): nat {
    if s == [] then 0 else 256 * FromBigEndian(s[..|s| - 1]) + s[|s| - 1]
  }

  function ToBigEndian(n: nat, width: nat): (s: Bytes)
    ensures |s| == width
  {
    if width == 0 then [] else ToBigEndian(n / 256, width - 1) + [n % 256]
  }

  lemma {:induction false} DecodeInteger(n: nat, width: nat)
    requires n < Pow256(width)
    ensures FromBigEndian(ToBigEndian(n, width)) == n
  {
    if width == 0 {
    } else {
      DecodeInteger(n / 256, width - 1);
      var s := ToBigEndian(n, width);
      assert s[..|s| - 1] == ToBigEndian(n / 256, width - 1);
    }
  }

  lemma {:induction false} EncodeInteger(s: Bytes)
    ensures FromBigEndian(s) < Pow256(|s|)
    ensures ToBigEndian(FromBigEndian(s), |s|) == s
  {
    if s == [] {
    } else {
      EncodeInteger(s[..|s| - 1]);
      assert s == s[..|s| - 1] + [s[|s| - 1]];
    }
  }

  /** The two's complement reading of a `width`-byte bit pattern. */
  function Signed(bits: nat, width: nat): int {
    if 2 * bits < Pow256(width) then bits else bits - Pow256(width)
  }

  /** What is left of `x` in a signed integer of `width` bytes. */
  function Truncated(x: int, width: nat): int {
    Signed(x % Pow256(width), width)
  }

  lemma Regroup(a: Bytes, b: Bytes, c: Bytes)
    ensures a + b + c == a + (b + c)
  {
  }
}
