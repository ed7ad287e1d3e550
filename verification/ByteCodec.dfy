/**
 Integers in memory and on disk.  The reader fills an integer by copying header bytes through a
 reverse iterator into the integer's own storage; on a little-endian host that is a big-endian
 decode.  This module states the two notions independently and proves that they agree.
 */
module ByteCodec {
  type byte = x: int | 0 <= x < 256
  type Bytes = seq<byte>

  const TWO_31: int := 0x8000_0000
  const TWO_63: int := 0x8000_0000_0000_0000

  function Pow256(n: nat): (p: nat)
    ensures 1 <= p
    ensures n > 0 ==> p % 2 == 0
  {
    if n == 0 then 1 else 256 * Pow256(n - 1)
  }

  lemma PowersOf256()
    ensures Pow256(4) == 2 * TWO_31
    ensures Pow256(8) == 2 * TWO_63
  {
    assert Pow256(2) == 0x1_0000;
    assert Pow256(4) == 0x1_0000_0000;
    assert Pow256(6) == 0x1_0000_0000_0000;
  }

  /** The number whose little-endian storage is `memory`. */
  function LittleEndian(memory: Bytes): (value: nat)
    ensures value < Pow256(|memory|)
  {
    if memory == [] then 0 else memory[0] + 256 * LittleEndian(memory[1..])
  }

  /** The number written most significant byte first. */
  function BigEndian(text: Bytes): nat {
    if text == [] then 0 else 256 * BigEndian(text[..|text| - 1]) + text[|text| - 1]
  }

  /** Two's complement reading of an n-byte unsigned number. */
  function Signed(unsigned: nat, n: nat): int {
    if unsigned < Pow256(n) / 2 then unsigned else unsigned - Pow256(n)
  }

  /** `std::copy_n(buffer.rend() - back, n, ...)`: n bytes, walking down from index back - 1. */
  function CopyFromReverse(buffer: Bytes, back: nat, n: nat): Bytes
    requires n <= back <= |buffer|
  {
    seq(n, i requires 0 <= i < n => buffer[back - 1 - i])
  }

  /** The signed integer that such a copy leaves in an n-byte variable. */
  function CopiedInt(buffer: Bytes, back: nat, n: nat): int
    requires n <= back <= |buffer|
  {
    Signed(LittleEndian(CopyFromReverse(buffer, back, n)), n)
  }

  /** Big-endian two's complement encoding, the form a log writer produces. */
  function EncodeUnsigned(value: nat, n: nat): (text: Bytes)
    requires value < Pow256(n)
    ensures |text| == n
  {
    if n == 0 then [] else EncodeUnsigned(value / 256, n - 1) + [value % 256]
  }

  predicate Fits(value: int, n: nat) {
    0 <= 2 * value + Pow256(n) < 2 * Pow256(n)
  }

  function EncodeInt(value: int, n: nat): (text: Bytes)
    requires n > 0 && Fits(value, n)
    ensures |text| == n
  {
    EncodeUnsigned(if value < 0 then value + Pow256(n) else value, n)
  }

  lemma {:induction false} ReverseCopyIsBigEndian(buffer: Bytes, back: nat, n: nat)
    requires n <= back <= |buffer|
    ensures LittleEndian(CopyFromReverse(buffer, back, n)) == BigEndian(buffer[back - n..back])
  {
    if n > 0 {
      ReverseCopyIsBigEndian(buffer, back - 1, n - 1);
      assert CopyFromReverse(buffer, back, n)[1..] == CopyFromReverse(buffer, back - 1, n - 1);
      assert buffer[back - n..back][..n - 1] == buffer[back - n..back - 1];
    }
  }

  lemma {:induction false} DecodeUnsignedInvertsEncode(value: nat, n: nat)
    requires value < Pow256(n)
    ensures BigEndian(EncodeUnsigned(value, n)) == value
  {
    if n > 0 {
      DecodeUnsignedInvertsEncode(value / 256, n - 1);
      assert EncodeUnsigned(value, n)[..n - 1] == EncodeUnsigned(value / 256, n - 1);
    }
  }

  /** Where an encoded integer sits in a buffer, the reverse-iterator copy recovers it. */
  lemma CopyInvertsEncode(value: int, buffer: Bytes, back: nat, n: nat)
    requires 0 < n <= back <= |buffer| && Fits(value, n)
    requires buffer[back - n..back] == EncodeInt(value, n)
    ensures CopiedInt(buffer, back, n) == value
  {
    ReverseCopyIsBigEndian(buffer, back, n);
    DecodeUnsignedInvertsEncode(if value < 0 then value + Pow256(n) else value, n);
  }

  lemma {:induction false} EncodeUnsignedInvertsDecode(text: Bytes)
    ensures BigEndian(text) < Pow256(|text|)
    ensures EncodeUnsigned(BigEndian(text), |text|) == text
  {
    if text != [] {
      EncodeUnsignedInvertsDecode(text[..|text| - 1]);
    }
  }

  /** The copy loses nothing: re-encoding the integer gives back the bytes it was copied from. */
  lemma EncodeInvertsCopy(buffer: Bytes, back: nat, n: nat)
    requires 0 < n <= back <= |buffer|
    ensures Fits(CopiedInt(buffer, back, n), n)
    ensures EncodeInt(CopiedInt(buffer, back, n), n) == buffer[back - n..back]
  {
    ReverseCopyIsBigEndian(buffer, back, n);
    EncodeUnsignedInvertsDecode(buffer[back - n..back]);
  }
}
