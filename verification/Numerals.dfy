/**
 The texts and the words behind the last two codecs: what a base 58 string of some bytes is, and what the words of a
 draw are of the digest they come from.
 */
module Numerals {
  import opened Wrappers
  import opened Words
  import Base58
  import Draws

  // ----- base 58

  const NUMBERS: string := "123456789"
  const CAPITALS: string := "ABCDEFGHJKLMNPQRSTUVWXYZ"
  const SMALLS: string := "abcdefghijkmnopqrstuvwxyz"

  /** The digits of the encoding are one to nine and the letters without I, O and l, in this order. */
  lemma LettersExactly(d: nat)
    requires d < 58
    ensures |NUMBERS + CAPITALS + SMALLS| == 58 && Base58.Letter(d) == (NUMBERS + CAPITALS + SMALLS)[d] as int
  {
    if d < 9 {
      assert Base58.Letter(d) == NUMBERS[d] as int;
    } else if d < 33 {
      Capitals(d);
    } else {
      assert Base58.Letter(d) == SMALLS[d - 33] as int;
    }
  }

  lemma Capitals(d: nat)
    requires 9 <= d < 33
    ensures |CAPITALS| == 24 && Base58.Letter(d) == CAPITALS[d - 9] as int
  {
  }

  /** The number some digits of base 58 make, the highest first. */
  ghost function Positional(digits: seq<nat>): nat {
    if digits == [] then 0 else 58 * Positional(digits[..|digits| - 1]) + digits[|digits| - 1]
  }

  lemma {:induction false} NumeralExactly(digits: seq<nat>, i: nat)
    requires i < |digits| && forall k | 0 <= k < |digits| :: digits[k] < 58
    ensures Base58.Numeral(Positional(digits), |digits|)[i] == Base58.Letter(digits[i])
    decreases |digits|
  {
    hide Base58.Letter;
    var n := |digits| - 1;
    var value := Positional(digits);
    assert value / 58 == Positional(digits[..n]) && value % 58 == digits[n];
    if i < n {
      NumeralExactly(digits[..n], i);
    }
  }

  /**
   A short block is written as a fixed number of digits, those of its bytes read as one number; a longer string is its
   first eight bytes and then the rest.
   */
  lemma EncodedExactly(data: seq<u8>, digits: seq<nat>, rest: seq<u8>)
    requires |data| <= 8 && |digits| == [0, 2, 3, 5, 6, 7, 9, 10, 11][|data|]
    requires Positional(digits) == BigEndian(data) && forall k | 0 <= k < |digits| :: digits[k] < 58
    ensures |Base58.Encode(data)| == |digits|
    ensures forall i | 0 <= i < |digits| :: Base58.Encode(data)[i] == Base58.Letter(digits[i])
    ensures |data| == 8 ==> Base58.Encode(data + rest) == Base58.Encode(data) + Base58.Encode(rest)
  {
    hide Base58.Letter, Base58.Numeral, Positional, BigEndian;
    Base58.EmptyBlock();
    forall i | 0 <= i < |digits| ensures Base58.Numeral(Positional(digits), |digits|)[i] == Base58.Letter(digits[i]) {
      NumeralExactly(digits, i);
    }
    assert Base58.Encode(data) == Base58.EncodeBlock(data) by {
      if |data| == 8 {
        assert data[..8] == data && data[8..] == [];
        assert Base58.EncodeBlock(data) + [] == Base58.EncodeBlock(data);
      }
    }
    if |data| == 8 {
      assert (data + rest)[..8] == data && (data + rest)[8..] == rest;
    }
  }

  // ----- the words of a draw

  lemma {:induction false} LittleEndianSplits(a: seq<u8>, b: seq<u8>)
    ensures LittleEndian(a + b) == LittleEndian(a) + Pow256(|a|) * LittleEndian(b)
  {
    if a == [] {
      assert a + b == b;
    } else {
      assert (a + b)[1..] == a[1..] + b && (a + b)[0] == a[0];
      LittleEndianSplits(a[1..], b);
      Regrouped(Pow256(|a| - 1), LittleEndian(b));
    }
  }

  lemma Regrouped(power: nat, value: nat)
    ensures 256 * (power * value) == 256 * power * value
  {
  }

  /**
   Two words of the stream are the low and the high half of one little-endian number: the digest of the entropy and of
   the number of the block in eight little-endian bytes.
   */
  lemma WordsExactly(keccak: Draws.Keccak, entropy: seq<u8>, block: nat)
    ensures var low, high := Draws.WordAt(keccak, entropy, 2 * block), Draws.WordAt(keccak, entropy, 2 * block + 1);
            var digest := keccak(entropy + LittleEndianBytes(block % 0x1_0000_0000_0000_0000, 8));
            && low < Pow256(16) && high < Pow256(16)
            && LittleEndian(BigEndianBytes(digest, 32)) == low + Pow256(16) * high
  {
    hide LittleEndian, BigEndianBytes, LittleEndianBytes, Pow256;
    var bytes := Draws.BlockOf(keccak, entropy, block);
    assert 2 * block / 2 == block && (2 * block + 1) / 2 == block && (2 * block + 1) % 2 == 1;
    LittleEndianSplits(bytes[..16], bytes[16..32]);
    assert bytes[..16] + bytes[16..32] == bytes;
    BytesOfLittleEndian(bytes[..16]);
    BytesOfLittleEndian(bytes[16..32]);
  }

  /** A draw refuses candidates out of order first, then a pool without weight; no candidates draw nobody. */
  lemma DrawRefusals(keccak: Draws.Keccak, candidates: seq<Draws.Candidate>, entropy: seq<u8>, seats: nat)
    ensures var r := Draws.DrawOutcome(keccak, candidates, entropy, seats);
            var unsorted := exists i :: 0 < i < |candidates| && candidates[i - 1].identity >= candidates[i].identity;
            var weightless := forall i | 0 <= i < |candidates| :: candidates[i].weight == 0;
            && (unsorted <==> r == Failure(Draws.UnsortedCandidates))
            && (!unsorted && candidates != [] && weightless <==> r == Failure(Draws.EmptyPool))
            && (!unsorted && !(candidates != [] && weightless) ==>
                  r == Success(Draws.Drawn(keccak, entropy, candidates, Draws.Indices(|candidates|), 0, seats)))
  {
    hide Draws.Drawn, Draws.WeightOf, Draws.Indices;
    var pool := Draws.Indices(|candidates|);
    Weightless(candidates, pool);
    if Draws.WeightOf(candidates, pool) == 0 {
      forall i | 0 <= i < |candidates| ensures candidates[i].weight == 0 {
        assert pool[i] == i;
      }
    }
    Draws.DrawnStep(keccak, entropy, candidates, pool, 0, seats);
  }

  lemma {:induction false} Weightless(candidates: seq<Draws.Candidate>, pool: seq<nat>)
    requires forall i | 0 <= i < |pool| :: pool[i] < |candidates|
    ensures Draws.WeightOf(candidates, pool) == 0 <==>
            forall i | 0 <= i < |pool| :: candidates[pool[i]].weight == 0
  {
    if pool != [] {
      Weightless(candidates, pool[1..]);
      assert forall i | 0 < i < |pool| :: pool[i] == pool[1..][i - 1];
    }
  }

  /** The weight of a pool is that of its members, one after the other. */
  lemma WeightExactly(candidates: seq<Draws.Candidate>, i: nat, pool: seq<nat>)
    requires i < |candidates|
    ensures Draws.WeightOf(candidates, []) == 0
    ensures Draws.WeightOf(candidates, [i] + pool) == candidates[i].weight + Draws.WeightOf(candidates, pool)
  {
    assert ([i] + pool)[1..] == pool;
  }
}
