/**
 * Raw memory as the kernel sees it: bytes, and the little-endian images of the 32-bit
 * ints and words that Nachos casts to and from `char *` (headers, bitmaps, user memory).
 */
module Bytes {

  type Byte = b: int | 0 <= b < 256

  const INT_MIN := -0x8000_0000
  const INT_MAX := 0x7fff_ffff
  const TWO_32 := 0x1_0000_0000

  /** A value that a C `int` can hold. */
  predicate IsInt(x: int) {
    INT_MIN <= x <= INT_MAX
  }

  /** A value that a C `unsigned int` can hold. */
  predicate IsUnsigned(u: int) {
    0 <= u < TWO_32
  }

  /** The two's-complement pattern of an int, as an unsigned number. */
  function Unsigned(x: int): (u: int)
    requires IsInt(x)
    ensures IsUnsigned(u)
  {
    if x < 0 then x + TWO_32 else x
  }

  function Signed(u: int): (x: int)
    requires IsUnsigned(u)
    ensures IsInt(x) && Unsigned(x) == u
  {
    if u > INT_MAX then u - TWO_32 else u
  }

  /** Byte `k` of an unsigned word in memory, least significant first. */
  function Digit(u: int, k: int): (d: Byte)
    requires IsUnsigned(u) && 0 <= k < 4
  {
    if k == 0 then u % 256
    else if k == 1 then u / 256 % 256
    else if k == 2 then u / 256 / 256 % 256
    else u / 256 / 256 / 256
  }

  function FromDigits(d0: Byte, d1: Byte, d2: Byte, d3: Byte): (u: int)
    ensures IsUnsigned(u)
  {
    d0 + 256 * (d1 + 256 * (d2 + 256 * d3))
  }

  lemma {:induction false} DigitsRoundTrip(u: int)
    requires IsUnsigned(u)
    ensures FromDigits(Digit(u, 0), Digit(u, 1), Digit(u, 2), Digit(u, 3)) == u
  {}

  /** The unsigned word stored at `b[at..at + 4]`. */
  function UnsignedAt(b: seq<Byte>, at: int): (u: int)
    requires 0 <= at && at + 4 <= |b|
    ensures IsUnsigned(u)
  {
    FromDigits(b[at], b[at + 1], b[at + 2], b[at + 3])
  }

  /** `s` with `data` in place of what was at `pos`. */
  function Splice(s: seq<Byte>, pos: int, data: seq<Byte>): (r: seq<Byte>)
    requires 0 <= pos && pos + |data| <= |s|
    ensures |r| == |s|
  {
    s[..pos] + data + s[pos + |data|..]
  }

  // ---- arrays of unsigned words, and the bytes they occupy ----

  type Word = u: int | 0 <= u < 0x1_0000_0000

  function Pack(words: seq<Word>): (b: seq<Byte>)
    ensures |b| == 4 * |words|
  {
    seq(4 * |words|, i requires 0 <= i < 4 * |words| => Digit(words[i / 4], i % 4))
  }

  function Unpack(b: seq<Byte>): (words: seq<Word>)
    ensures |words| == |b| / 4
  {
    seq(|b| / 4, i requires 0 <= i < |b| / 4 => UnsignedAt(b, 4 * i))
  }

  lemma {:induction false} PackedByte(words: seq<Word>, i: int, k: int)
    requires 0 <= i < |words| && 0 <= k < 4
    ensures Pack(words)[4 * i + k] == Digit(words[i], k)
  {
    assert (4 * i + k) / 4 == i && (4 * i + k) % 4 == k;
  }

  lemma {:induction false} PackedWord(words: seq<Word>, i: int)
    requires 0 <= i < |words|
    ensures UnsignedAt(Pack(words), 4 * i) == words[i]
  {
    PackedByte(words, i, 0);
    PackedByte(words, i, 1);
    PackedByte(words, i, 2);
    PackedByte(words, i, 3);
    DigitsRoundTrip(words[i]);
  }

  /** A word array written to memory and fetched again is unchanged. */
  lemma {:induction false} UnpackPack(words: seq<Word>)
    ensures Unpack(Pack(words)) == words
  {
    forall i | 0 <= i < |words|
      ensures Unpack(Pack(words))[i] == words[i]
    {
      PackedWord(words, i);
    }
  }
}
