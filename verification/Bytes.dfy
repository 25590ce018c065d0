/** Bytes, 64-bit machine integers and their little-endian encoding. */
module Bytes {

  type Byte = b: int | 0 <= b < 256

  const TWO_TO_63: nat := 0x8000_0000_0000_0000
  const TWO_TO_64: nat := 0x1_0000_0000_0000_0000

  type i64 = n: int | -0x8000_0000_0000_0000 <= n < 0x8000_0000_0000_0000
  type u64 = n: int | 0 <= n < 0x1_0000_0000_0000_0000

  const I64_MAX: i64 := 0x7fff_ffff_ffff_ffff

  /** Two's complement reinterpretation of a signed word. */
  function ToUnsigned(n: i64): u64 {
    if n < 0 then n + TWO_TO_64 else n
  }

  function ToSigned(n: u64): i64 {
    if n >= TWO_TO_63 then n - TWO_TO_64 else n
  }

  /** Little-endian digits of `n`, exactly `width` of them. */
  function LittleEndian(n: nat, width: nat): (bytes: seq<Byte>)
    ensures |bytes| == width
  {
    if width == 0 then [] else [n % 256] + LittleEndian(n / 256, width - 1)
  }

  function LittleEndianValue(bytes: seq<Byte>): nat {
    if bytes == [] then 0 else bytes[0] + 256 * LittleEndianValue(bytes[1..])
  }

  function Pow256(width: nat): nat {
    if width == 0 then 1 else 256 * Pow256(width - 1)
  }

  /** The eight bytes of a word, least significant first. */
  function WordBytes(n: nat): seq<Byte> {
    [n % 0x100, n / 0x100 % 0x100, n / 0x1_0000 % 0x100, n / 0x100_0000 % 0x100,
     n / 0x1_0000_0000 % 0x100, n / 0x100_0000_0000 % 0x100, n / 0x1_0000_0000_0000 % 0x100, n / 0x100_0000_0000_0000 % 0x100]
  }

  lemma HalfWord(n: nat)
    ensures LittleEndian(n, 4) == [n % 0x100, n / 0x100 % 0x100, n / 0x1_0000 % 0x100, n / 0x100_0000 % 0x100]
  {
    assert LittleEndian(n, 4) == [n % 256] + LittleEndian(n / 256, 3);
    assert LittleEndian(n / 256, 3) == [n / 256 % 256] + LittleEndian(n / 256 / 256, 2);
    assert n / 256 / 256 == n / 0x1_0000 && n / 0x1_0000 / 256 == n / 0x100_0000;
    assert LittleEndian(n / 0x1_0000, 2) == [n / 0x1_0000 % 256] + LittleEndian(n / 0x100_0000, 1);
    assert LittleEndian(n / 0x100_0000, 1) == [n / 0x100_0000 % 256];
  }

  lemma {:induction false} LittleEndianSplit(n: nat, width: nat)
    ensures LittleEndian(n, width + 4) == LittleEndian(n, 4) + LittleEndian(n / 0x1_0000_0000, width)
  {
    assert LittleEndian(n, width + 4) == [n % 256] + LittleEndian(n / 256, width + 3);
    assert LittleEndian(n / 256, width + 3) == [n / 256 % 256] + LittleEndian(n / 256 / 256, width + 2);
    assert n / 256 / 256 == n / 0x1_0000 && n / 0x1_0000 / 256 == n / 0x100_0000;
    assert n / 0x100_0000 / 256 == n / 0x1_0000_0000;
    assert LittleEndian(n / 0x1_0000, width + 2) == [n / 0x1_0000 % 256] + LittleEndian(n / 0x100_0000, width + 1);
    assert LittleEndian(n / 0x100_0000, width + 1) == [n / 0x100_0000 % 256] + LittleEndian(n / 0x1_0000_0000, width);
    HalfWord(n);
  }

  lemma LittleEndianWord(n: nat)
    ensures LittleEndian(n, 8) == WordBytes(n)
  {
    var high := n / 0x1_0000_0000;
    LittleEndianSplit(n, 4);
    HalfWord(n);
    HalfWord(high);
    hide LittleEndian;
    assert high / 0x100 == n / 0x100_0000_0000;
    assert high / 0x1_0000 == n / 0x1_0000_0000_0000;
    assert high / 0x100_0000 == n / 0x100_0000_0000_0000;
  }

  lemma {:induction false} LittleEndianRoundTrip(n: nat, width: nat)
    requires n < Pow256(width)
    ensures LittleEndianValue(LittleEndian(n, width)) == n
  {
    if width != 0 {
      assert n / 256 < Pow256(width - 1);
      LittleEndianRoundTrip(n / 256, width - 1);
      assert LittleEndian(n, width)[1..] == LittleEndian(n / 256, width - 1);
    }
  }

  lemma Pow256Of8()
    ensures Pow256(8) == TWO_TO_64
  {
    assert Pow256(2) == 0x1_0000;
    assert Pow256(4) == 0x1_0000_0000;
    assert Pow256(6) == 0x1_0000_0000_0000;
  }

  /** A word survives eight little-endian bytes, signed or not. */
  lemma WordRoundTrip(n: u64)
    ensures LittleEndianValue(LittleEndian(n, 8)) == n
  {
    Pow256Of8();
    LittleEndianRoundTrip(n, 8);
  }
}
