/** Byte strings and the integer encodings the instruction builders use:
    the minimal big-endian bytes that bn.js's `toBuffer()` produces, the
    fixed-width little-endian bytes of buffer-layout's `nu64`, and zero-padded
    left alignment, which is what `Buffer.copy` into a zeroed buffer yields. */
module Bytes {

  type byte = b: int | 0 <= b < 256

  /** `n` zero bytes: a freshly allocated `Buffer.alloc(n)` or `Uint8Array(n)`. */
  function Zeros(n: nat): (r: seq<byte>)
    ensures |r| == n
    ensures forall i :: 0 <= i < n ==> r[i] == 0
  {
    seq(n, i => 0)
  }

  /** 256 to the power k: the number of values k bytes can hold. */
  function Pow256(k: nat): (r: nat)
    ensures r > 0
  {
    if k == 0 then 1 else 256 * Pow256(k - 1)
  }

  /** One past the largest unsigned 64-bit value. */
  const U64_LIMIT: nat := 0x1_0000_0000_0000_0000

  lemma Pow256Eight()
    ensures Pow256(8) == U64_LIMIT
  {
    assert Pow256(2) == 0x1_0000;
    assert Pow256(4) == 0x1_0000_0000;
    assert Pow256(6) == 0x1_0000_0000_0000;
  }

  // ---------------------------------------------------------------------
  // Big-endian, minimal length (bn.js `toBuffer()` with its defaults).
  // ---------------------------------------------------------------------

  /** The minimal big-endian bytes of n, never empty: zero is the single
      byte 0, and a positive number never starts with a zero byte. */
  function BEMinimal(n: nat): (r: seq<byte>)
    ensures 1 <= |r|
    ensures n == 0 ==> r == [0]
    ensures n > 0 ==> r[0] != 0
    decreases n
  {
    if n < 256 then [n] else BEMinimal(n / 256) + [n % 256]
  }

  /** The number a big-endian byte string denotes. */
  function BEValue(s: seq<byte>): nat
  {
    if s == [] then 0 else BEValue(s[..|s| - 1]) * 256 + s[|s| - 1]
  }

  lemma {:induction false} BEMinimalRoundTrip(n: nat)
    ensures BEValue(BEMinimal(n)) == n
    decreases n
  {
    if n >= 256 {
      var s := BEMinimal(n);
      assert s[..|s| - 1] == BEMinimal(n / 256);
      BEMinimalRoundTrip(n / 256);
    }
  }

  /** A number below 256^k needs at most k bytes. */
  lemma {:induction false} BEMinimalLength(n: nat, k: nat)
    requires 1 <= k && n < Pow256(k)
    ensures |BEMinimal(n)| <= k
    decreases k
  {
    if n >= 256 {
      assert k >= 2;
      assert n / 256 < Pow256(k - 1);
      BEMinimalLength(n / 256, k - 1);
    }
  }

  // ---------------------------------------------------------------------
  // Little-endian, fixed width (buffer-layout `nu64`).
  // ---------------------------------------------------------------------

  /** The low `width` bytes of n, least significant first. */
  function LE(n: nat, width: nat): (r: seq<byte>)
    ensures |r| == width
  {
    if width == 0 then [] else [n % 256] + LE(n / 256, width - 1)
  }

  /** The number a little-endian byte string denotes. */
  function LEValue(s: seq<byte>): nat
  {
    if s == [] then 0 else s[0] + 256 * LEValue(s[1..])
  }

  lemma {:induction false} LERoundTrip(n: nat, width: nat)
    requires n < Pow256(width)
    ensures LEValue(LE(n, width)) == n
    decreases width
  {
    if width > 0 {
      var r := LE(n, width);
      assert r[1..] == LE(n / 256, width - 1);
      assert n / 256 < Pow256(width - 1);
      LERoundTrip(n / 256, width - 1);
    }
  }

  /** A number below 256 is one byte followed by zeros. */
  lemma {:induction false} LESmall(n: nat, width: nat)
    requires n < 256 && 1 <= width
    ensures LE(n, width) == [n] + Zeros(width - 1)
  {
    LEZero(width - 1);
  }

  lemma {:induction false} LEZero(width: nat)
    ensures LE(0, width) == Zeros(width)
    decreases width
  {
    if width > 0 {
      LEZero(width - 1);
      assert LE(0, width) == [0] + Zeros(width - 1);
    }
  }

  lemma {:induction false} LEValueZeros(width: nat)
    ensures LEValue(Zeros(width)) == 0
    decreases width
  {
    if width > 0 {
      assert Zeros(width)[1..] == Zeros(width - 1);
      LEValueZeros(width - 1);
    }
  }

  // ---------------------------------------------------------------------
  // Copying into a zeroed fixed-width target.
  // ---------------------------------------------------------------------

  /** `bytes` placed at the front of `width` zero bytes; whatever does not
      fit is cut off at the end, as `Buffer.copy` does. */
  function LeftAlignPad(bytes: seq<byte>, width: nat): (r: seq<byte>)
    ensures |r| == width
    ensures forall i :: 0 <= i < width ==> r[i] == if i < |bytes| then bytes[i] else 0
  {
    if |bytes| >= width then bytes[..width] else bytes + Zeros(width - |bytes|)
  }

  /** `s` with the bytes from `offset` on replaced by `bytes`. */
  function Overwrite(s: seq<byte>, offset: nat, bytes: seq<byte>): (r: seq<byte>)
    requires offset + |bytes| <= |s|
    ensures |r| == |s|
    ensures forall i :: 0 <= i < |s| ==>
              r[i] == if offset <= i < offset + |bytes| then bytes[i - offset] else s[i]
  {
    s[..offset] + bytes + s[offset + |bytes|..]
  }

  /** Two writes side by side are one write of both. */
  lemma OverwriteAdjacent(s: seq<byte>, offset: nat, a: seq<byte>, c: seq<byte>)
    requires offset + |a| + |c| <= |s|
    ensures Overwrite(Overwrite(s, offset, a), offset + |a|, c) == Overwrite(s, offset, a + c)
  {
    var lhs := Overwrite(Overwrite(s, offset, a), offset + |a|, c);
    var rhs := Overwrite(s, offset, a + c);
    assert forall i | 0 <= i < |s| :: lhs[i] == rhs[i];
  }

  /** Copying the fitting prefix of `bytes` over zeros is left alignment. */
  lemma OverwriteZerosIsPad(bytes: seq<byte>, width: nat, copied: nat)
    requires copied == if |bytes| < width then |bytes| else width
    ensures Overwrite(Zeros(width), 0, bytes[..copied]) == LeftAlignPad(bytes, width)
  {
    var lhs := Overwrite(Zeros(width), 0, bytes[..copied]);
    var rhs := LeftAlignPad(bytes, width);
    assert forall i | 0 <= i < width :: lhs[i] == rhs[i];
  }

  /** A number that fits in `width` bytes survives left alignment: its
      minimal big-endian bytes stand whole at the front, and every byte
      after them is zero. */
  lemma PaddedBEHoldsValue(n: nat, width: nat)
    requires 1 <= width && n < Pow256(width)
    ensures |BEMinimal(n)| <= width
    ensures LeftAlignPad(BEMinimal(n), width)[..|BEMinimal(n)|] == BEMinimal(n)
    ensures BEValue(LeftAlignPad(BEMinimal(n), width)[..|BEMinimal(n)|]) == n
    ensures forall i :: |BEMinimal(n)| <= i < width ==> LeftAlignPad(BEMinimal(n), width)[i] == 0
  {
    BEMinimalLength(n, width);
    BEMinimalRoundTrip(n);
  }
}
