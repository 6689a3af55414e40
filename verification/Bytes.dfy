/** Bytes, 32-bit words and their four-byte layout, and C text. */
module Bytes {

  type byte = x: int | 0 <= x < 256

  const TWO_TO_THE_31: int := 0x8000_0000
  const TWO_TO_THE_32: int := 0x1_0000_0000

  /** A C `int` (what a descriptor is) and an unsigned 32-bit word. */
  type int32 = x: int | -0x8000_0000 <= x < 0x8000_0000
  type uint32 = x: int | 0 <= x < 0x1_0000_0000

  const NUL: byte := 0
  const NEWLINE: byte := 10
  const SPACE: byte := 32
  const DOT: byte := 46
  const SLASH: byte := 47

  datatype Option<+T> = None | Some(value: T)

  /** The bytes of a string literal, without the terminator. */
  function Ascii(s: string): (r: seq<byte>)
    ensures |r| == |s|
  {
    seq(|s|, i requires 0 <= i < |s| => s[i] as int % 256)
  }

  /** Characters of the ASCII range become their codes. */
  lemma AsciiCodes(s: string)
    ensures forall i :: 0 <= i < |s| && s[i] as int < 128 ==> Ascii(s)[i] == s[i] as int
  {
  }

  function Zeros(n: nat): (r: seq<byte>)
    ensures |r| == n
    ensures forall i :: 0 <= i < n ==> r[i] == 0
  {
    seq(n, _ => 0)
  }

  // ---- Little-endian layout of a 32-bit word ----

  function Encode(n: uint32): (r: seq<byte>)
    ensures |r| == 4
  {
    [n % 256, n / 256 % 256, n / 65536 % 256, n / 16777216]
  }

  function Decode(b: seq<byte>): (r: uint32)
    requires |b| == 4
  {
    b[0] as int + 256 * b[1] as int + 65536 * b[2] as int + 16777216 * b[3] as int
  }

  /** The two's-complement image of a C `int`. */
  function ToUnsigned(n: int32): uint32 {
    if n < 0 then n + TWO_TO_THE_32 else n
  }

  function ToSigned(u: uint32): int32 {
    if u < TWO_TO_THE_31 then u else u - TWO_TO_THE_32
  }

  function EncodeInt(n: int32): (r: seq<byte>)
    ensures |r| == 4
  {
    Encode(ToUnsigned(n))
  }

  function DecodeInt(b: seq<byte>): (r: int32)
    requires |b| == 4
  {
    ToSigned(Decode(b))
  }

  lemma DecodeEncode(n: uint32)
    ensures Decode(Encode(n)) == n
  {
    assert n / 256 % 256 == n / 256 - 256 * (n / 65536);
    assert n / 65536 % 256 == n / 65536 - 256 * (n / 16777216);
  }

  /** The four bytes at `at` make up `value`, the lowest first: byte k counts for 256 to the k. */
  predicate HoldsWord(bytes: seq<byte>, at: nat, value: int)
    requires at + 4 <= |bytes|
  {
    value == bytes[at] as int + 256 * bytes[at + 1] as int + 65536 * bytes[at + 2] as int
             + 16777216 * bytes[at + 3] as int
  }

  lemma WordValue(n: uint32)
    ensures HoldsWord(Encode(n), 0, n)
  {
    DecodeEncode(n);
  }

  lemma ValueDecoded(b: seq<byte>)
    requires |b| == 4
    ensures HoldsWord(b, 0, Decode(b))
  {
  }

  /** The bytes of a descriptor: its value, with 2^32 added when it is negative. */
  lemma IntValue(n: int32)
    ensures HoldsWord(EncodeInt(n), 0, if n < 0 then n + 0x1_0000_0000 else n)
  {
    WordValue(ToUnsigned(n));
  }

  lemma IntDecoded(b: seq<byte>)
    requires |b| == 4
    ensures HoldsWord(b, 0, if DecodeInt(b) < 0 then DecodeInt(b) + 0x1_0000_0000 else DecodeInt(b))
  {
    ValueDecoded(b);
  }

  lemma EncodeDecode(b: seq<byte>)
    requires |b| == 4
    ensures Encode(Decode(b)) == b
  {
    var n := Decode(b);
    var b1: int, b2: int, b3: int := b[1], b[2], b[3];
    assert n / 256 == b1 + 256 * b2 + 65536 * b3;
    assert n / 65536 == b2 + 256 * b3;
    assert n / 16777216 == b3;
    assert Encode(n) == [b[0], b[1], b[2], b[3]];
  }

  /** A descriptor survives the trip through its four raw bytes, and any four bytes are some `int`. */
  lemma IntRoundTrip(n: int32, b: seq<byte>)
    requires |b| == 4
    ensures DecodeInt(EncodeInt(n)) == n
    ensures EncodeInt(DecodeInt(b)) == b
  {
    DecodeEncode(ToUnsigned(n));
    EncodeDecode(b);
  }
}
