/**
 * Go's fixed-width integers and the conversions the synthesizer applies to them.
 *
 * A Go `uint8` is a `bv8`, a `uint32` a `bv32`. A signed `int16` or `int32` is
 * held as its two's-complement bit pattern (`bv16`, `bv32`), which is how Go
 * stores it; `Int16Value` and `Int32Value` give the integer that pattern denotes.
 * Go's conversion `uint32(x)` of an integer `x` keeps `x` modulo 2^32 (a
 * negative value is sign-extended, then truncated); `Uint32` is that conversion.
 */
module Bits {

  const TwoTo16: int := 0x1_0000
  const TwoTo26: int := 0x400_0000
  const TwoTo32: int := 0x1_0000_0000

  /** Go's `uint32(x)` for an integer value `x`. */
  function Uint32(x: int): bv32 {
    (x % TwoTo32) as bv32
  }

  /** The integer a Go `int16` with bit pattern `b` denotes. */
  function Int16Value(b: bv16): (i: int)
    ensures -0x8000 <= i < 0x8000
    ensures i % TwoTo16 == b as int
    ensures i < 0 <==> b >= 0x8000
  {
    if b < 0x8000 then b as int else b as int - TwoTo16
  }

  /** The integer a Go `int32` with bit pattern `b` denotes. */
  function Int32Value(b: bv32): (i: int)
    ensures -0x8000_0000 <= i < 0x8000_0000
    ensures i % TwoTo32 == b as int
  {
    var n := b as int;
    if n < 0x8000_0000 then n else n - TwoTo32
  }

  /** Sign extension of a 16-bit pattern to 32 bits. */
  function SignExtend16(b: bv16): bv32 {
    if b < 0x8000 then b as bv32 else (b as bv32) | 0xFFFF_0000
  }

  /** Two patterns that denote the same `int16` are the same pattern. */
  lemma Int16ValueInjective(a: bv16, b: bv16)
    requires Int16Value(a) == Int16Value(b)
    ensures a == b
  {
    assert (a as int) as bv16 == a && (b as int) as bv16 == b;
  }

  /** The 4-bit pattern whose unsigned value is `n`. */
  lemma NibbleValue(n: int)
    requires 0 <= n < 0x10
    ensures (n as bv4) as int == n
  {}

  /** Placing four bits above four others is multiplication by 2^4 and addition. */
  lemma Concat4(h: bv4, l: bv4)
    ensures (((h as bv8) << 4) | (l as bv8)) as int == (h as int) * 0x10 + l as int
  {}

  /** The byte whose unsigned value is `n`, built from its two nibbles. */
  function Unsigned8(n: int): (b: bv8)
    requires 0 <= n < 0x100
    ensures b as int == n
  {
    var h, l := (n / 0x10) as bv4, (n % 0x10) as bv4;
    NibbleValue(n / 0x10);
    NibbleValue(n % 0x10);
    Concat4(h, l);
    ((h as bv8) << 4) | (l as bv8)
  }

  /** Placing a byte above another is multiplication by 2^8 and addition. */
  lemma Concat8(h: bv8, l: bv8)
    ensures (((h as bv16) << 8) | (l as bv16)) as int == (h as int) * 0x100 + l as int
  {}

  /** The 16-bit pattern whose unsigned value is `n`, built from its two bytes. */
  function Unsigned16(n: int): (b: bv16)
    requires 0 <= n < TwoTo16
    ensures b as int == n
  {
    var h, l := Unsigned8(n / 0x100), Unsigned8(n % 0x100);
    Concat8(h, l);
    ((h as bv16) << 8) | (l as bv16)
  }

  /** The 32-bit pattern whose unsigned value is `n`, built from its two 16-bit halves. */
  function Unsigned32(n: int): (b: bv32)
    requires 0 <= n < TwoTo32
    ensures b as int == n
  {
    var h, l := Unsigned16(n / 0x1_0000), Unsigned16(n % 0x1_0000);
    Concat16(h, l);
    ((h as bv32) << 16) | (l as bv32)
  }

  /** Two `int16` values that agree modulo 2^16 are equal. */
  lemma SameInt16(x: int, y: int)
    requires -0x8000 <= x < 0x8000 && -0x8000 <= y < 0x8000 && x % 0x1_0000 == y % 0x1_0000
    ensures x == y
  {}

  /** Two `int32` values that agree modulo 2^32 are equal. */
  lemma SameInt32(x: int, y: int)
    requires -0x8000_0000 <= x < 0x8000_0000 && -0x8000_0000 <= y < 0x8000_0000
    requires x % 0x1_0000_0000 == y % 0x1_0000_0000
    ensures x == y
  {}

  /** Every `int16` value has a pattern: with `Int16ValueInjective`, patterns and values correspond one to one. */
  lemma Int16ValueOnto(i: int)
    requires -0x8000 <= i < 0x8000
    ensures exists b: bv16 :: Int16Value(b) == i
  {
    var b := Unsigned16(i % TwoTo16);
    SameInt16(Int16Value(b), i);
  }

  /** Two patterns that denote the same `int32` are the same pattern. */
  lemma Int32ValueInjective(a: bv32, b: bv32)
    requires Int32Value(a) == Int32Value(b)
    ensures a == b
  {
    assert (a as int) as bv32 == a && (b as int) as bv32 == b;
  }

  /** Every `int32` value has a pattern: with `Int32ValueInjective`, patterns and values correspond one to one. */
  lemma Int32ValueOnto(i: int)
    requires -0x8000_0000 <= i < 0x8000_0000
    ensures exists b: bv32 :: Int32Value(b) == i
  {
    var b := Unsigned32(i % TwoTo32);
    SameInt32(Int32Value(b), i);
  }

  /** Zero extension from 16 to 32 bits keeps the unsigned value. */
  lemma ZeroExtend16(l: bv16)
    ensures (l as bv32) as int == l as int
  {}

  /** Placing a 16-bit half above another is multiplication by 2^16 and addition. */
  lemma Concat16(h: bv16, l: bv16)
    ensures (((h as bv32) << 16) | (l as bv32)) as int == (h as int) * 0x1_0000 + l as int
  {}

  /** Placing 6 bits above 26 bits is multiplication by 2^26 and addition. */
  lemma Concat26(h: bv6, l: bv26)
    ensures (((h as bv32) << 26) | (l as bv32)) as int == (h as int) * 0x400_0000 + l as int
  {}

  /** A pattern is its top 6 bits placed above its low 26 bits. */
  lemma SplitAt26(x: bv32)
    ensures x == (((x >> 26) as bv6 as bv32) << 26) | ((x & 0x3FF_FFFF) as bv26 as bv32)
  {}

  /** A value split at bit 26 has its low part as remainder modulo 2^26. */
  lemma ModOfSplit26(n: int, h: int, l: int)
    requires n == h * 0x400_0000 + l && 0 <= l < 0x400_0000
    ensures n % 0x400_0000 == l
  {}

  /** The low 26 bits of a pattern, read unsigned, are the pattern modulo 2^26. */
  lemma Low26Mod(x: bv32)
    ensures ((x & 0x3FF_FFFF) as bv26) as int == (x as int) % 0x400_0000
  {
    var h, l := (x >> 26) as bv6, (x & 0x3FF_FFFF) as bv26;
    SplitAt26(x);
    Concat26(h, l);
    ModOfSplit26(x as int, h as int, l as int);
  }

  /** An `int32` and its unsigned reading differ by 0 or 2^32, a multiple of 2^26. */
  lemma ModOfSignedReading(v: int, n: int)
    requires v == n || v == n - TwoTo32
    ensures v % 0x400_0000 == n % 0x400_0000
  {}

  /** The low 26 bits of an `int32`, read unsigned, are the integer modulo 2^26. */
  lemma Low26Signed(a: bv32)
    ensures ((a & 0x3FF_FFFF) as bv26) as int == Int32Value(a) % 0x400_0000
  {
    Low26Mod(a);
    ModOfSignedReading(Int32Value(a), a as int);
  }

  /** Zero extension from 5 to 32 bits keeps the unsigned value. */
  lemma ZeroExtend5(l: bv5)
    ensures (l as bv32) as int == l as int
  {}

  /** A value in [0, 2^32) is its own remainder modulo 2^32. */
  lemma NonNegativeMod32(n: int)
    requires 0 <= n < TwoTo32
    ensures n % TwoTo32 == n
  {}

  /** A negative `int16` value taken modulo 2^32 has all sixteen top bits set above its pattern. */
  lemma NegativeMod32(v: int, n: int)
    requires 0x8000 <= n < TwoTo16 && v == n - TwoTo16
    ensures v % TwoTo32 == 0xFFFF * TwoTo16 + n
  {}

  /** Sign extension is Go's `uint32(x)` for an `int16` x. */
  lemma SignExtend16IsUint32(b: bv16)
    ensures SignExtend16(b) as int == Int16Value(b) % TwoTo32
    ensures Uint32(Int16Value(b)) == SignExtend16(b)
  {
    var w := SignExtend16(b);
    if b < 0x8000 {
      assert w == b as bv32;
      ZeroExtend16(b);
      NonNegativeMod32(b as int);
    } else {
      assert w == ((0xFFFF as bv16 as bv32) << 16) | (b as bv32);
      Concat16(0xFFFF, b);
      NegativeMod32(Int16Value(b), b as int);
    }
    assert (w as int) as bv32 == w;
  }

  /** For an `int32`, Go's `uint32(x)` keeps the bit pattern unchanged. */
  lemma Uint32OfInt32(a: bv32)
    ensures Uint32(Int32Value(a)) == a
  {
    assert Int32Value(a) % TwoTo32 == a as int;
    assert (a as int) as bv32 == a;
  }

  /** Go's `uint32(x)` of a register index 0..31 is that index in the low five bits. */
  lemma Uint32OfIndex(i: int)
    requires 0 <= i < 32
    ensures Uint32(i) == (i as bv5) as bv32
    ensures (i as bv5) as int == i
  {
    var v := i as bv5;
    assert v as int == i;
    ZeroExtend5(v);
    NonNegativeMod32(i);
    assert ((v as bv32) as int) as bv32 == v as bv32;
  }

  /** The low 16 bits of a sign-extended pattern are the pattern. */
  lemma SignExtend16Low(b: bv16)
    ensures (SignExtend16(b) & 0xFFFF) as bv16 == b
  {
    if b < 0x8000 {
      assert SignExtend16(b) == b as bv32;
    } else {
      assert SignExtend16(b) == (b as bv32) | 0xFFFF_0000;
    }
  }
}
