/**
 CryptoNote block base58: eight bytes to eleven characters, a short block to a fixed size. Strings are their
 bytes. Decoding inverts encoding, and whatever the block loop accepts encodes back to itself, so the final
 canonicality check never fires.
 */
module Base58 {
  import opened Wrappers
  import opened Words

  const FULL_BLOCK_BYTES: nat := 8
  const FULL_BLOCK_CHARS: nat := 11

  /** The characters of a block of n bytes. */
  function EncodedSize(n: nat): nat
    requires n <= FULL_BLOCK_BYTES
  {
    [0, 2, 3, 5, 6, 7, 9, 10, 11][n]
  }

  /** The alphabet: 1-9, A-Z without I and O, a-z without l, in byte order. */
  function Letter(d: nat): u8
    requires d < 58
  {
    if d < 9 then 49 + d
    else if d < 17 then 65 + (d - 9)
    else if d < 22 then 74 + (d - 17)
    else if d < 33 then 80 + (d - 22)
    else if d < 44 then 97 + (d - 33)
    else 109 + (d - 44)
  }

  /** The digit a character stands for, if it is in the alphabet. */
  function Digit(c: u8): (d: Option<nat>)
    ensures d.Some? ==> d.value < 58 && Letter(d.value) == c
    ensures d.None? ==> forall k | 0 <= k < 58 :: Letter(k) != c
  {
    if 49 <= c < 58 then Some(c - 49)
    else if 65 <= c < 73 then Some(c - 65 + 9)
    else if 74 <= c < 79 then Some(c - 74 + 17)
    else if 80 <= c < 91 then Some(c - 80 + 22)
    else if 97 <= c < 108 then Some(c - 97 + 33)
    else if 109 <= c < 123 then Some(c - 109 + 44)
    else None
  }

  lemma DigitOfLetter(d: nat)
    requires d < 58
    ensures Digit(Letter(d)) == Some(d)
  {
  }

  // ----- base 58 numerals

  function Pow58(n: nat): (r: nat)
    ensures r > 0
  {
    if n == 0 then 1 else 58 * Pow58(n - 1)
  }

  /** A value as n characters, most significant first. */
  function Numeral(value: nat, n: nat): (chars: seq<u8>)
    ensures |chars| == n
  {
    if n == 0 then [] else Numeral(value / 58, n - 1) + [Letter(value % 58)]
  }

  /** The value of a numeral, unless a character is not in the alphabet. */
  function Value58(chars: seq<u8>): Option<nat> {
    if chars == [] then Some(0) else
      var front := Value58(chars[..|chars| - 1]);
      var last := Digit(chars[|chars| - 1]);
      if front.None? || last.None? then None else Some(58 * front.value + last.value)
  }

  lemma {:induction false} ValueOfNumeral(value: nat, n: nat)
    requires value < Pow58(n)
    ensures Value58(Numeral(value, n)) == Some(value)
  {
    if n > 0 {
      ValueOfNumeral(value / 58, n - 1);
      DigitOfLetter(value % 58);
      assert Numeral(value, n)[..n - 1] == Numeral(value / 58, n - 1);
    }
  }

  lemma {:induction false} NumeralOfValue(chars: seq<u8>)
    requires Value58(chars).Some?
    ensures Numeral(Value58(chars).value, |chars|) == chars && Value58(chars).value < Pow58(|chars|)
  {
    if chars != [] {
      var n := |chars| - 1;
      NumeralOfValue(chars[..n]);
      var v := Value58(chars).value;
      var d := Digit(chars[n]).value;
      assert v / 58 == Value58(chars[..n]).value && v % 58 == d;
      assert chars == chars[..n] + [chars[n]];
    }
  }

  /** Every block size has room for its bytes. */
  lemma RoomForBytes(n: nat)
    requires n <= FULL_BLOCK_BYTES
    ensures Pow256(n) <= Pow58(EncodedSize(n))
  {
    assert Pow58(2) == 3364;
    assert Pow58(4) == 11316496;
    assert Pow58(6) == 38068692544;
    assert Pow58(8) == 128063081718016;
    assert Pow58(10) == 430804206899405824;
    assert Pow256(2) == 65536;
    assert Pow256(4) == 4294967296;
    assert Pow256(6) == 281474976710656;
    assert Pow256(8) == 18446744073709551616;
  }

  // ----- one block

  function EncodeBlock(data: seq<u8>): (chars: seq<u8>)
    requires |data| <= FULL_BLOCK_BYTES
    ensures |chars| == EncodedSize(|data|)
  {
    Numeral(BigEndian(data), EncodedSize(|data|))
  }

  function DecodeBlock(chunk: seq<u8>, n: nat): Option<seq<u8>> {
    if n > FULL_BLOCK_BYTES || |chunk| != EncodedSize(n) then None
    else
      var value := Value58(chunk);
      if value.None? || value.value >= Pow256(n) then None else Some(BigEndianBytes(value.value, n))
  }

  lemma BlockDecodes(data: seq<u8>)
    requires |data| <= FULL_BLOCK_BYTES
    ensures DecodeBlock(EncodeBlock(data), |data|) == Some(data)
  {
    hide Numeral, Value58, Pow58, Pow256, BigEndian, BigEndianBytes, EncodedSize;
    BytesOfBigEndian(data);
    RoomForBytes(|data|);
    ValueOfNumeral(BigEndian(data), EncodedSize(|data|));
  }

  lemma BlockReencodes(chunk: seq<u8>, n: nat)
    requires DecodeBlock(chunk, n).Some?
    ensures |DecodeBlock(chunk, n).value| == n && EncodeBlock(DecodeBlock(chunk, n).value) == chunk
  {
    hide Numeral, Value58, Pow58, Pow256, BigEndian, BigEndianBytes, EncodedSize;
    NumeralOfValue(chunk);
    BigEndianOfBytes(Value58(chunk).value, n);
  }

  // ----- whole strings

  function Encode(data: seq<u8>): seq<u8> {
    if data == [] then []
    else if |data| < FULL_BLOCK_BYTES then EncodeBlock(data)
    else EncodeBlock(data[..FULL_BLOCK_BYTES]) + Encode(data[FULL_BLOCK_BYTES..])
  }

  /** The bytes of a short block of so many characters; some lengths are impossible. */
  function ShortBytes(length: nat): (n: Option<nat>)
    ensures n.Some? ==> n.value < FULL_BLOCK_BYTES && EncodedSize(n.value) == length
    ensures n.None? ==> forall k | 0 <= k < FULL_BLOCK_BYTES :: EncodedSize(k) != length
  {
    match length
    case 0 => Some(0)
    case 2 => Some(1)
    case 3 => Some(2)
    case 5 => Some(3)
    case 6 => Some(4)
    case 7 => Some(5)
    case 9 => Some(6)
    case 10 => Some(7)
    case _ => None
  }

  /** What the block loop accepts. */
  function Decode(chars: seq<u8>): Option<seq<u8>> {
    if |chars| < FULL_BLOCK_CHARS then
      var n := ShortBytes(|chars|);
      if n.None? then None else DecodeBlock(chars, n.value)
    else
      var block := DecodeBlock(chars[..FULL_BLOCK_CHARS], FULL_BLOCK_BYTES);
      var rest := Decode(chars[FULL_BLOCK_CHARS..]);
      if block.None? || rest.None? then None else Some(block.value + rest.value)
  }

  lemma EmptyBlock()
    ensures EncodeBlock([]) == [] && DecodeBlock([], 0) == Some([])
  {
  }

  lemma ShortSizes(n: nat)
    requires n < FULL_BLOCK_BYTES
    ensures EncodedSize(n) < FULL_BLOCK_CHARS && ShortBytes(EncodedSize(n)) == Some(n)
    ensures EncodedSize(FULL_BLOCK_BYTES) == FULL_BLOCK_CHARS
  {
  }

  /** Decoding inverts encoding, whatever the length. */
  lemma {:induction false} EncodedDecodes(data: seq<u8>)
    ensures Decode(Encode(data)) == Some(data)
  {
    hide EncodeBlock, DecodeBlock, EncodedSize, ShortBytes;
    ShortSizes(0);
    if data == [] {
      EmptyBlock();
    } else if |data| < FULL_BLOCK_BYTES {
      ShortSizes(|data|);
      BlockDecodes(data);
    } else {
      var head, tail := data[..FULL_BLOCK_BYTES], data[FULL_BLOCK_BYTES..];
      BlockDecodes(head);
      EncodedDecodes(tail);
      var chars := EncodeBlock(head) + Encode(tail);
      assert chars[..FULL_BLOCK_CHARS] == EncodeBlock(head) && chars[FULL_BLOCK_CHARS..] == Encode(tail);
      assert head + tail == data;
    }
  }

  /** Whatever the block loop accepts encodes back to itself. */
  lemma {:induction false} DecodedReencodes(chars: seq<u8>)
    requires Decode(chars).Some?
    ensures Encode(Decode(chars).value) == chars
    decreases |chars|
  {
    hide EncodeBlock, DecodeBlock, EncodedSize;
    if |chars| < FULL_BLOCK_CHARS {
      var n := ShortBytes(|chars|).value;
      BlockReencodes(chars, n);
      if n == 0 {
        EmptyBlock();
        NoBytes(chars);
      }
    } else {
      var head, tail := chars[..FULL_BLOCK_CHARS], chars[FULL_BLOCK_CHARS..];
      BlockReencodes(head, FULL_BLOCK_BYTES);
      DecodedReencodes(tail);
      var block, rest := DecodeBlock(head, FULL_BLOCK_BYTES).value, Decode(tail).value;
      assert (block + rest)[..FULL_BLOCK_BYTES] == block && (block + rest)[FULL_BLOCK_BYTES..] == rest;
      assert head + tail == chars;
    }
  }

  lemma NoBytes(chars: seq<u8>)
    requires ShortBytes(|chars|) == Some(0)
    ensures chars == []
  {
  }

  // ----- the loops

  method WriteBlock(data: seq<u8>) returns (chars: seq<u8>)
    requires |data| <= FULL_BLOCK_BYTES
    ensures chars == EncodeBlock(data)
  {
    hide EncodedSize;
    var size := EncodedSize(|data|);
    var value := BlockValue(data);
    var out := new u8[size](_ => 49);
    var i := size;
    while i > 0 && value > 0
      invariant 0 <= i <= size
      invariant Numeral(BigEndian(data), size) == Numeral(value, i) + out[i..]
      invariant forall j | 0 <= j < i :: out[j] == 49
    {
      i := i - 1;
      ghost var written := out[i + 1..];
      out[i] := Letter(value % 58);
      assert out[i..] == [Letter(value % 58)] + written;
      assert Numeral(value, i + 1) + written == Numeral(value / 58, i) + ([Letter(value % 58)] + written);
      value := value / 58;
    }
    if i > 0 {
      ZeroNumeral(i);
      assert out[..i] == Numeral(0, i);
    }
    assert out[..] == out[..i] + out[i..];
    chars := out[..];
  }

  method BlockValue(data: seq<u8>) returns (value: nat)
    ensures value == BigEndian(data)
  {
    value := 0;
    for i := 0 to |data|
      invariant value == BigEndian(data[..i])
    {
      value := 256 * value + data[i];
      assert data[..i + 1][..i] == data[..i];
    }
    assert data[..|data|] == data;
  }

  lemma {:induction false} ZeroNumeral(n: nat)
    ensures forall j | 0 <= j < n :: Numeral(0, n)[j] == 49
  {
    if n > 0 {
      ZeroNumeral(n - 1);
    }
  }

  /** One encoded block back to its bytes; the checked arithmetic refuses what leaves the u64 range. */
  method ReadBlock(chunk: seq<u8>, n: nat) returns (r: Option<seq<u8>>)
    ensures r == DecodeBlock(chunk, n)
  {
    hide BigEndianBytes, EncodedSize;
    if n > FULL_BLOCK_BYTES || |chunk| != EncodedSize(n) {
      return None;
    }
    U64Fits();
    PowersGrow(n, FULL_BLOCK_BYTES);
    var value: u64 := 0;
    for i := 0 to |chunk|
      invariant Value58(chunk[..i]) == Some(value)
    {
      assert chunk[..i + 1][..i] == chunk[..i];
      var digit := Digit(chunk[i]);
      if digit.None? {
        ValueNeedsPrefix(chunk, i + 1);
        return None;
      }
      if 58 * value + digit.value > U64_MAX {
        ValueNeedsPrefix(chunk, i + 1);
        return None;
      }
      value := 58 * value + digit.value;
    }
    assert chunk[..|chunk|] == chunk;
    if value >= Pow256(n) {
      return None;
    }
    r := Some(BigEndianBytes(value, n));
  }

  lemma {:induction false} PowersGrow(a: nat, b: nat)
    requires a <= b
    ensures Pow256(a) <= Pow256(b)
  {
    if a < b {
      PowersGrow(a, b - 1);
    }
  }

  /** A numeral is worth at least its prefixes, and has a value only if they do. */
  lemma {:induction false} ValueNeedsPrefix(chunk: seq<u8>, i: nat)
    requires i <= |chunk|
    ensures Value58(chunk[..i]).None? ==> Value58(chunk).None?
    ensures Value58(chunk).Some? ==> Value58(chunk[..i]).Some? && Value58(chunk[..i]).value <= Value58(chunk).value
  {
    if i == |chunk| {
      assert chunk[..i] == chunk;
    } else {
      var front := chunk[..|chunk| - 1];
      assert front[..i] == chunk[..i];
      ValueNeedsPrefix(front, i);
    }
  }

  method Base58Encode(data: seq<u8>) returns (out: seq<u8>)
    ensures out == Encode(data)
  {
    hide EncodeBlock, EncodedSize;
    out := [];
    var i := 0;
    assert data[0..] == data && [] + Encode(data) == Encode(data);
    while i + FULL_BLOCK_BYTES <= |data|
      invariant i <= |data| && Encode(data) == out + Encode(data[i..])
    {
      var rest := data[i..];
      var block := WriteBlock(data[i..i + FULL_BLOCK_BYTES]);
      assert rest[..FULL_BLOCK_BYTES] == data[i..i + FULL_BLOCK_BYTES];
      assert rest[FULL_BLOCK_BYTES..] == data[i + FULL_BLOCK_BYTES..];
      ghost var tail := Encode(data[i + FULL_BLOCK_BYTES..]);
      assert out + (block + tail) == (out + block) + tail;
      out := out + block;
      i := i + FULL_BLOCK_BYTES;
    }
    var remainder := data[i..];
    if remainder != [] {
      var block := WriteBlock(remainder);
      out := out + block;
    } else {
      assert out + [] == out;
    }
  }

  /** Strict decoding. The canonicality check at the end is proved to pass. */
  method Base58Decode(chars: seq<u8>) returns (r: Option<seq<u8>>)
    ensures r == Decode(chars)
  {
    hide DecodeBlock, EncodeBlock, EncodedSize, ShortBytes;
    if chars == [] {
      ShortSizes(0);
      EmptyBlock();
      return Some([]);
    }
    var fullBlocks, shortLength := |chars| / FULL_BLOCK_CHARS, |chars| % FULL_BLOCK_CHARS;
    var shortBytes := ShortBytes(shortLength);
    if shortBytes.None? {
      ImpossibleLength(chars);
      return None;
    }
    r := ReadBlocks(chars, fullBlocks, shortBytes.value);
    if r.Some? {
      var again := Base58Encode(r.value);
      DecodedReencodes(chars);
      if again != chars {
        return None;
      }
    }
  }

  lemma {:induction false} ImpossibleLength(chars: seq<u8>)
    requires ShortBytes(|chars| % FULL_BLOCK_CHARS).None?
    ensures Decode(chars).None?
    decreases |chars|
  {
    hide DecodeBlock;
    if |chars| >= FULL_BLOCK_CHARS {
      ImpossibleLength(chars[FULL_BLOCK_CHARS..]);
    }
  }

  /** The full blocks, then the short one. */
  method ReadBlocks(chars: seq<u8>, fullBlocks: nat, shortBytes: nat) returns (r: Option<seq<u8>>)
    requires fullBlocks == |chars| / FULL_BLOCK_CHARS && ShortBytes(|chars| % FULL_BLOCK_CHARS) == Some(shortBytes)
    ensures r == Decode(chars)
  {
    hide DecodeBlock, EncodedSize, ShortBytes;
    var out: seq<u8> := [];
    assert chars[0..] == chars;
    assert Decode(chars).Some? ==> [] + Decode(chars).value == Decode(chars).value;
    for i := 0 to fullBlocks
      invariant i * FULL_BLOCK_CHARS <= |chars|
      invariant Resumes(Decode(chars), out, Decode(chars[i * FULL_BLOCK_CHARS..]))
    {
      var rest := chars[i * FULL_BLOCK_CHARS..];
      var chunk := chars[i * FULL_BLOCK_CHARS..(i + 1) * FULL_BLOCK_CHARS];
      assert rest[..FULL_BLOCK_CHARS] == chunk && rest[FULL_BLOCK_CHARS..] == chars[(i + 1) * FULL_BLOCK_CHARS..];
      var block := ReadBlock(chunk, FULL_BLOCK_BYTES);
      if block.None? {
        return None;
      }
      ghost var tail := Decode(chars[(i + 1) * FULL_BLOCK_CHARS..]);
      if tail.Some? {
        assert out + (block.value + tail.value) == (out + block.value) + tail.value;
      }
      out := out + block.value;
    }
    var last := chars[fullBlocks * FULL_BLOCK_CHARS..];
    if shortBytes > 0 {
      var block := ReadBlock(last, shortBytes);
      if block.None? {
        return None;
      }
      out := out + block.value;
    } else {
      NoBytes(last);
      EmptyBlock();
      assert out + [] == out;
    }
    r := Some(out);
  }

  /** What was read so far and what the rest decodes to. */
  ghost predicate Resumes(whole: Option<seq<u8>>, out: seq<u8>, rest: Option<seq<u8>>) {
    whole == if rest.None? then None else Some(out + rest.value)
  }
}
