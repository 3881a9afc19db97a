/** Bytes and the little-endian integer encodings of Go's encoding/binary. */
module Bytes {
  /** A Go `byte` (uint8). */
  type byte = b: int | 0 <= b < 256

  /** Go's fixed-width integer types; uint8 is `byte`. */
  type int8 = i: int | -0x80 <= i < 0x80
  type int16 = i: int | -0x8000 <= i < 0x8000
  type int32 = i: int | -0x8000_0000 <= i < 0x8000_0000
  type int64 = i: int | -0x8000_0000_0000_0000 <= i < 0x8000_0000_0000_0000
  type uint16 = i: int | 0 <= i < 0x1_0000
  type uint32 = i: int | 0 <= i < 0x1_0000_0000
  type uint64 = i: int | 0 <= i < 0x1_0000_0000_0000_0000

  const Two8: nat := 0x100
  const Two16: nat := 0x1_0000
  const Two32: nat := 0x1_0000_0000
  const Two64: nat := 0x1_0000_0000_0000_0000

  /** Go's int arithmetic: the result reduced to 64-bit two's complement. */
  function Wrap64(x: int): (r: int64)
    ensures -0x8000_0000_0000_0000 <= x < 0x8000_0000_0000_0000 ==> r == x
  {
    var m := x % Two64;
    if m < 0x8000_0000_0000_0000 then m else m - Two64
  }

  function Min(a: int, b: int): int {
    if a <= b then a else b
  }

  function Max(a: int, b: int): int {
    if a >= b then a else b
  }

  lemma ModSmall(x: nat, d: nat)
    requires x < d
    ensures x % d == x
  {
  }

  lemma MulMono(a: nat, b: nat, c: nat)
    requires a <= b
    ensures a * c <= b * c
  {
  }

  /** Bit k of x, for the bit weight d == 2^k: 0 or 1. */
  function Bit(x: nat, d: nat): (r: nat)
    requires d > 0
    ensures r < 2
  {
    x / d % 2
  }

  /** Bit k of a ^ b, for the bit weight d == 2^k: set when exactly one of the two bits is. */
  function XorBit(a: nat, b: nat, d: nat): (r: nat)
    requires d > 0
    ensures r < 2 && (r == 1 <==> Bit(a, d) != Bit(b, d))
  {
    (Bit(a, d) + Bit(b, d)) % 2
  }

  /** Go's `a ^ b` on two bytes, written bit by bit. */
  function Xor(a: byte, b: byte): byte
  {
    XorBit(a, b, 1) + 2 * XorBit(a, b, 2) + 4 * XorBit(a, b, 4) + 8 * XorBit(a, b, 8)
    + 16 * XorBit(a, b, 16) + 32 * XorBit(a, b, 32) + 64 * XorBit(a, b, 64) + 128 * XorBit(a, b, 128)
  }

  /** binary.LittleEndian.Uint16: the first two bytes, least significant first. */
  function LE16(s: seq<byte>): (r: nat)
    requires |s| >= 2
    ensures r < Two16
    ensures r % Two8 == s[0] && r / Two8 == s[1]
  {
    s[0] + Two8 * s[1]
  }

  /** binary.LittleEndian.Uint32: the first four bytes, least significant first. */
  function LE32(s: seq<byte>): (r: nat)
    requires |s| >= 4
    ensures r < Two32
    ensures r % Two16 == LE16(s) && r / Two16 == LE16(s[2..])
  {
    LE16(s) + Two16 * LE16(s[2..])
  }

  /** binary.LittleEndian.Uint64: the first eight bytes, least significant first. */
  function LE64(s: seq<byte>): (r: nat)
    requires |s| >= 8
    ensures r < Two64
    ensures r % Two32 == LE32(s) && r / Two32 == LE32(s[4..])
  {
    LE32(s) + Two32 * LE32(s[4..])
  }

  /** binary.LittleEndian.PutUint32: the four bytes of `n`, least significant first. */
  function PutLE32(n: nat): (s: seq<byte>)
    requires n < Two32
    ensures |s| == 4
  {
    [n % Two8, (n / Two8) % Two8, (n / Two16) % Two8, n / (Two16 * Two8)]
  }

  /** Reading back what PutLE32 wrote gives the number, whatever follows it. */
  lemma LE32OfPutLE32(n: nat, rest: seq<byte>)
    requires n < Two32
    ensures LE32(PutLE32(n) + rest) == n
  {
    var s := PutLE32(n) + rest;
    assert s[2..][0] == s[2] && s[2..][1] == s[3];
  }

  /**
   * Go's conversion of an unsigned value below `modulus` (2 to the bit width) to the
   * signed type of the same width (int8(u), int16(u), ...): two's complement.
   */
  function Signed(u: nat, modulus: nat): (r: int)
    requires 0 < modulus && modulus % 2 == 0 && u < modulus
    ensures -(modulus / 2) <= r < modulus / 2
    ensures r == u || r == u - modulus
    ensures r >= 0 <==> u < modulus / 2
  {
    if u < modulus / 2 then u else u - modulus
  }

  /** A Go string's bytes ([]byte(s)), one byte per character (the low eight bits of each). */
  function StringBytes(s: string): (b: seq<byte>)
    ensures |b| == |s| && forall i :: 0 <= i < |s| ==> b[i] == s[i] as int % 256
  {
    seq(|s|, i requires 0 <= i < |s| => (s[i] as int % 256) as byte)
  }

  /** A byte slice read as a Go string (string(b)), one character per byte. */
  function BytesString(b: seq<byte>): (s: string)
    ensures |s| == |b| && forall i :: 0 <= i < |b| ==> s[i] as int == b[i]
  {
    seq(|b|, i requires 0 <= i < |b| => b[i] as char)
  }

  /** Reading the bytes of a string of 8-bit characters back as a string gives the string. */
  lemma StringBytesRoundTrip(s: string)
    requires forall i :: 0 <= i < |s| ==> s[i] as int < 256
    ensures BytesString(StringBytes(s)) == s
  {
  }
}
