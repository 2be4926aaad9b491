/** The machine words of the protocol: bytes and unsigned 64-bit integers. */
module Words {

  const U8_MAX: nat := 0xFF
  const U64_MAX: nat := 0xFFFF_FFFF_FFFF_FFFF

  type u8 = n: nat | n <= U8_MAX
  type u64 = n: nat | n <= U64_MAX

  function SaturatingAdd(a: nat, b: nat): u64 {
    if a + b > U64_MAX then U64_MAX else a + b
  }

  // ----- fixed-width integers as bytes

  /** 256 to the n. */
  function Pow256(n: nat): (r: nat)
    ensures r > 0
  {
    if n == 0 then 1 else 256 * Pow256(n - 1)
  }

  /** Whether a value fits in n bytes. */
  predicate Fits(value: nat, n: nat) {
    value < Pow256(n)
  }

  /** The value of a little-endian byte string. */
  function LittleEndian(bytes: seq<u8>): nat {
    if bytes == [] then 0 else bytes[0] + 256 * LittleEndian(bytes[1..])
  }

  function LittleEndianBytes(value: nat, n: nat): (bytes: seq<u8>)
    ensures |bytes| == n
  {
    if n == 0 then [] else [value % 256] + LittleEndianBytes(value / 256, n - 1)
  }

  /** The value of a big-endian byte string: what a digest, a key or a signature is here. */
  function BigEndian(bytes: seq<u8>): nat {
    if bytes == [] then 0 else 256 * BigEndian(bytes[..|bytes| - 1]) + bytes[|bytes| - 1]
  }

  function BigEndianBytes(value: nat, n: nat): (bytes: seq<u8>)
    ensures |bytes| == n
  {
    if n == 0 then [] else BigEndianBytes(value / 256, n - 1) + [value % 256]
  }

  lemma {:induction false} LittleEndianOfBytes(value: nat, n: nat)
    requires Fits(value, n)
    ensures LittleEndian(LittleEndianBytes(value, n)) == value
  {
    if n > 0 {
      LittleEndianOfBytes(value / 256, n - 1);
      assert LittleEndianBytes(value, n)[1..] == LittleEndianBytes(value / 256, n - 1);
    }
  }

  lemma {:induction false} BytesOfLittleEndian(bytes: seq<u8>)
    ensures Fits(LittleEndian(bytes), |bytes|)
    ensures LittleEndianBytes(LittleEndian(bytes), |bytes|) == bytes
  {
    if bytes != [] {
      BytesOfLittleEndian(bytes[1..]);
      var v := LittleEndian(bytes);
      assert v / 256 == LittleEndian(bytes[1..]) && v % 256 == bytes[0];
    }
  }

  lemma {:induction false} BigEndianOfBytes(value: nat, n: nat)
    requires Fits(value, n)
    ensures BigEndian(BigEndianBytes(value, n)) == value
  {
    if n > 0 {
      BigEndianOfBytes(value / 256, n - 1);
      assert BigEndianBytes(value, n)[..n - 1] == BigEndianBytes(value / 256, n - 1);
    }
  }

  lemma {:induction false} BytesOfBigEndian(bytes: seq<u8>)
    ensures Fits(BigEndian(bytes), |bytes|)
    ensures BigEndianBytes(BigEndian(bytes), |bytes|) == bytes
  {
    if bytes != [] {
      var n := |bytes| - 1;
      BytesOfBigEndian(bytes[..n]);
      var v := BigEndian(bytes);
      assert v / 256 == BigEndian(bytes[..n]) && v % 256 == bytes[n];
    }
  }

  /** The u64 range is eight bytes. */
  lemma U64Fits()
    ensures Pow256(8) == U64_MAX + 1 && Pow256(4) == 0x1_0000_0000 && Pow256(2) == 0x1_0000 && Pow256(1) == 256
  {
    assert Pow256(2) == 0x1_0000;
    assert Pow256(4) == 0x1_0000_0000;
    assert Pow256(6) == 0x1_0000_0000_0000;
  }
}
