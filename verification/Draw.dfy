/**
 The Ring draw of an era: seats drawn without replacement, weighted by the Kleos totals, from a word
 stream the entropy determines. The digest is uninterpreted: any function from bytes to digests.
 */
module Draws {
  import opened Wrappers
  import opened Words
  import opened Ranking

  /** The digest of a byte string, uninterpreted. */
  type Keccak = seq<u8> -> Hash

  datatype KleosError = UnsortedCandidates | EmptyPool

  datatype Candidate = Candidate(identity: Hash, weight: nat)

  // ----- the word stream

  /** The digest of the entropy and a block number, counted modulo 2^64. */
  function BlockOf(keccak: Keccak, entropy: seq<u8>, block: nat): (bytes: seq<u8>)
    ensures |bytes| == 32
  {
    BigEndianBytes(keccak(entropy + LittleEndianBytes(block % (U64_MAX + 1), 8)), 32)
  }

  /** The i-th word of the stream: half a block, little endian. */
  function WordAt(keccak: Keccak, entropy: seq<u8>, i: nat): nat {
    var block := BlockOf(keccak, entropy, i / 2);
    if i % 2 == 0 then LittleEndian(block[..16]) else LittleEndian(block[16..32])
  }

  lemma CounterWraps(blocks: nat)
    ensures (blocks % (U64_MAX + 1) + 1) % (U64_MAX + 1) == (blocks + 1) % (U64_MAX + 1)
  {
  }

  class WordStream {
    const keccak: Keccak
    const entropy: seq<u8>
    var counter: u64
    var word: seq<u8>
    var used: nat
    /** The blocks hashed so far; `counter` is this number modulo 2^64. */
    ghost var blocks: nat

    ghost predicate Valid()
      reads this
    {
      && counter == blocks % (U64_MAX + 1)
      && (used == 32 || (used == 16 && blocks > 0 && word == BlockOf(keccak, entropy, blocks - 1)))
    }

    /** The words read so far. */
    ghost function Read(): nat
      reads this
      requires Valid()
    {
      if used == 32 then 2 * blocks else 2 * blocks - 1
    }

    constructor (keccak: Keccak, entropy: seq<u8>)
      ensures Valid() && Read() == 0 && this.keccak == keccak && this.entropy == entropy
    {
      this.keccak, this.entropy := keccak, entropy;
      counter, word, used, blocks := 0, [], 32, 0;
    }

    method Refill()
      requires Valid() && used == 32
      modifies this
      ensures used == 0 && blocks == old(blocks) + 1 && counter == blocks % (U64_MAX + 1)
      ensures word == BlockOf(keccak, entropy, blocks - 1)
    {
      hide LittleEndianBytes, BigEndianBytes;
      CounterWraps(blocks);
      word := BigEndianBytes(keccak(entropy + LittleEndianBytes(counter, 8)), 32);
      counter := (counter + 1) % (U64_MAX + 1);
      used := 0;
      blocks := blocks + 1;
    }

    /** The next word of the stream. */
    method NextWord() returns (w: nat)
      requires Valid()
      modifies this
      ensures Valid() && Read() == old(Read()) + 1
      ensures w == WordAt(keccak, entropy, old(Read()))
    {
      hide LittleEndian, BlockOf, WordAt;
      ghost var read := Read();
      if used + 16 > 32 {
        Refill();
      }
      HalfBlock(keccak, entropy, blocks - 1, used);
      assert read == 2 * (blocks - 1) + used / 16;
      var bytes := word[used..used + 16];
      used := used + 16;
      w := LittleEndian(bytes);
    }
  }

  lemma HalfBlock(keccak: Keccak, entropy: seq<u8>, block: nat, used: nat)
    requires used == 0 || used == 16
    ensures WordAt(keccak, entropy, 2 * block + used / 16) ==
            LittleEndian(BlockOf(keccak, entropy, block)[used..used + 16])
  {
    hide LittleEndian, BlockOf;
    assert (2 * block + used / 16) / 2 == block && (2 * block + used / 16) % 2 == used / 16;
  }

  // ----- one pick

  function WeightAt(candidates: seq<Candidate>, i: nat): nat {
    if i < |candidates| then candidates[i].weight else 0
  }

  /** The weight of a pool of indices. */
  function WeightOf(candidates: seq<Candidate>, pool: seq<nat>): nat
  {
    if pool == [] then 0 else WeightAt(candidates, pool[0]) + WeightOf(candidates, pool[1..])
  }

  /** The position whose cumulative weight covers r. */
  function Pick(candidates: seq<Candidate>, pool: seq<nat>, r: nat): (p: nat)
    requires r < WeightOf(candidates, pool)
    ensures p < |pool|
  {
    var w := WeightAt(candidates, pool[0]);
    if r < w then 0 else 1 + Pick(candidates, pool[1..], r - w)
  }

  /** The pick is the one whose interval of cumulative weight contains r: the only one, and never a weightless one. */
  lemma {:induction false} PickCovers(candidates: seq<Candidate>, pool: seq<nat>, r: nat)
    requires r < WeightOf(candidates, pool)
    ensures var p := Pick(candidates, pool, r);
            && WeightOf(candidates, pool[..p]) <= r < WeightOf(candidates, pool[..p]) + WeightAt(candidates, pool[p])
            && WeightAt(candidates, pool[p]) > 0
  {
    var w := WeightAt(candidates, pool[0]);
    if r < w {
      assert pool[..0] == [];
    } else {
      PickCovers(candidates, pool[1..], r - w);
      var p := Pick(candidates, pool, r);
      assert pool[..p][1..] == pool[1..][..p - 1];
    }
  }

  function Without(pool: seq<nat>, p: nat): (rest: seq<nat>)
    requires p < |pool|
    ensures |rest| == |pool| - 1
    ensures forall i | 0 <= i < |rest| :: rest[i] == pool[if i < p then i else i + 1]
  {
    pool[..p] + pool[p + 1..]
  }

  lemma {:induction false} WeightSplit(candidates: seq<Candidate>, a: seq<nat>, b: seq<nat>)
    ensures WeightOf(candidates, a + b) == WeightOf(candidates, a) + WeightOf(candidates, b)
  {
    if a == [] {
      assert a + b == b;
    } else {
      assert (a + b)[1..] == a[1..] + b;
      WeightSplit(candidates, a[1..], b);
    }
  }

  /** Removing a pick lowers the live weight by its weight. */
  lemma WeightWithout(candidates: seq<Candidate>, pool: seq<nat>, p: nat)
    requires p < |pool|
    ensures forall i | i in Without(pool, p) :: i in pool
    ensures WeightOf(candidates, pool) == WeightOf(candidates, Without(pool, p)) + WeightAt(candidates, pool[p])
  {
    var front, back := pool[..p], pool[p + 1..];
    assert pool == front + ([pool[p]] + back);
    WeightSplit(candidates, front, [pool[p]] + back);
    WeightSplit(candidates, front, back);
    assert ([pool[p]] + back)[1..] == back;
  }

  // ----- the draw

  /** The draws from a pool, the next word being the k-th of the stream. */
  function Drawn(keccak: Keccak, entropy: seq<u8>, candidates: seq<Candidate>, pool: seq<nat>, k: nat, seats: nat)
    : seq<nat>
    decreases |pool|
  {
    var total := WeightOf(candidates, pool);
    if seats == 0 || pool == [] || total == 0 then [] else
      var p := Pick(candidates, pool, WordAt(keccak, entropy, k) % total);
      WeightWithout(candidates, pool, p);
      [pool[p]] + Drawn(keccak, entropy, candidates, Without(pool, p), k + 1, seats - 1)
  }

  ghost predicate AllDifferent(s: seq<nat>) {
    forall i, j | 0 <= i < j < |s| :: s[i] != s[j]
  }

  /** The candidates of a pool that weigh something. */
  ghost function Weighty(candidates: seq<Candidate>, pool: seq<nat>): nat
  {
    if pool == [] then 0 else (if WeightAt(candidates, pool[0]) > 0 then 1 else 0) + Weighty(candidates, pool[1..])
  }

  lemma {:induction false} WeightySplit(candidates: seq<Candidate>, a: seq<nat>, b: seq<nat>)
    ensures Weighty(candidates, a + b) == Weighty(candidates, a) + Weighty(candidates, b)
  {
    if a == [] {
      assert a + b == b;
    } else {
      assert (a + b)[1..] == a[1..] + b;
      WeightySplit(candidates, a[1..], b);
    }
  }

  lemma {:induction false} WeightlessPool(candidates: seq<Candidate>, pool: seq<nat>)
    ensures WeightOf(candidates, pool) == 0 <==> Weighty(candidates, pool) == 0
  {
    if pool != [] {
      WeightlessPool(candidates, pool[1..]);
    }
  }

  /**
   Whatever the pool and the entropy: the draws are different members of the pool, none of them weightless,
   and exactly as many as there are seats or weighty candidates, whichever runs out first.
   */
  lemma {:induction false} DrawIsFair(
    keccak: Keccak, entropy: seq<u8>, candidates: seq<Candidate>, pool: seq<nat>, k: nat, seats: nat)
    requires AllDifferent(pool)
    ensures var drawn := Drawn(keccak, entropy, candidates, pool, k, seats);
            && AllDifferent(drawn)
            && (forall i | i in drawn :: i in pool && WeightAt(candidates, i) > 0)
            && |drawn| == if seats < Weighty(candidates, pool) then seats else Weighty(candidates, pool)
    decreases |pool|
  {
    var total := WeightOf(candidates, pool);
    WeightlessPool(candidates, pool);
    if seats > 0 && pool != [] && total > 0 {
      var r := WordAt(keccak, entropy, k) % total;
      var p := Pick(candidates, pool, r);
      var rest := Without(pool, p);
      PickCovers(candidates, pool, r);
      WeightWithout(candidates, pool, p);
      RestIsDifferent(pool, p);
      DrawIsFair(keccak, entropy, candidates, rest, k + 1, seats - 1);
      WeightyWithout(candidates, pool, p);
    }
  }

  lemma RestIsDifferent(pool: seq<nat>, p: nat)
    requires AllDifferent(pool) && p < |pool|
    ensures AllDifferent(Without(pool, p)) && pool[p] !in Without(pool, p)
  {
  }

  lemma WeightyWithout(candidates: seq<Candidate>, pool: seq<nat>, p: nat)
    requires p < |pool|
    requires WeightAt(candidates, pool[p]) > 0
    ensures forall i | i in Without(pool, p) :: i in pool
    ensures Weighty(candidates, pool) == Weighty(candidates, Without(pool, p)) + 1
  {
    var front, back := pool[..p], pool[p + 1..];
    assert pool == front + ([pool[p]] + back);
    WeightySplit(candidates, front, [pool[p]] + back);
    WeightySplit(candidates, front, back);
    assert ([pool[p]] + back)[1..] == back;
  }

  /** The indices of a candidate list. */
  function Indices(n: nat): (pool: seq<nat>)
    ensures |pool| == n && forall i | 0 <= i < n :: pool[i] == i
  {
    if n == 0 then [] else Indices(n - 1) + [n - 1]
  }

  predicate AscendingById(candidates: seq<Candidate>) {
    forall i | 0 < i < |candidates| :: candidates[i - 1].identity < candidates[i].identity
  }

  function DrawOutcome(keccak: Keccak, candidates: seq<Candidate>, entropy: seq<u8>, seats: nat)
    : Result<seq<nat>, KleosError>
  {
    if !AscendingById(candidates) then Failure(UnsortedCandidates)
    else if candidates == [] then Success([])
    else if WeightOf(candidates, Indices(|candidates|)) == 0 then Failure(EmptyPool)
    else Success(Drawn(keccak, entropy, candidates, Indices(|candidates|), 0, seats))
  }

  /** The cumulative scan of one seat; the fallback position it starts from is never the answer. */
  method Select(candidates: seq<Candidate>, pool: seq<nat>, r: nat) returns (selected: nat)
    requires r < WeightOf(candidates, pool)
    ensures selected == Pick(candidates, pool, r)
  {
    var cumulative := 0;
    selected := |pool| - 1;
    ghost var found := false;
    for position := 0 to |pool|
      invariant cumulative <= r && cumulative + WeightOf(candidates, pool[position..]) == WeightOf(candidates, pool)
      invariant position + Pick(candidates, pool[position..], r - cumulative) == Pick(candidates, pool, r)
    {
      var rest := pool[position..];
      assert rest[0] == pool[position] && rest[1..] == pool[position + 1..];
      cumulative := cumulative + WeightAt(candidates, pool[position]);
      if r < cumulative {
        selected := position;
        return;
      }
    }
    assert false;
  }

  /** Draws the seats of an era, in draw order. */
  method Draw(keccak: Keccak, candidates: seq<Candidate>, entropy: seq<u8>, seats: nat)
    returns (r: Result<seq<nat>, KleosError>)
    ensures r == DrawOutcome(keccak, candidates, entropy, seats)
  {
    var i := 1;
    while i < |candidates|
      invariant forall j | 0 < j < i && j < |candidates| :: candidates[j - 1].identity < candidates[j].identity
    {
      if candidates[i - 1].identity >= candidates[i].identity {
        return Failure(UnsortedCandidates);
      }
      i := i + 1;
    }
    var pool: seq<nat> := Indices(|candidates|);
    var total := WeightOf(candidates, pool);
    if candidates == [] {
      return Success([]);
    }
    if total == 0 {
      return Failure(EmptyPool);
    }
    r := DrawSeats(keccak, candidates, entropy, seats, pool, total);
  }

  /** The seats of a pool, drawn one word at a time. */
  method DrawSeats(
    keccak: Keccak, candidates: seq<Candidate>, entropy: seq<u8>, seats: nat, all: seq<nat>, weight: nat)
    returns (r: Result<seq<nat>, KleosError>)
    requires weight == WeightOf(candidates, all)
    ensures r == Success(Drawn(keccak, entropy, candidates, all, 0, seats))
  {
    hide *;
    var stream := new WordStream(keccak, entropy);
    var drawn: seq<nat> := [];
    var pool, total := all, weight;
    assert drawn + Drawn(keccak, entropy, candidates, all, 0, seats) ==
           Drawn(keccak, entropy, candidates, all, 0, seats);
    while |drawn| < seats && pool != [] && total > 0
      invariant stream.Valid() && stream.Read() == |drawn| <= seats && fresh(stream)
      invariant stream.keccak == keccak && stream.entropy == entropy
      invariant total == WeightOf(candidates, pool)
      invariant Drawn(keccak, entropy, candidates, all, 0, seats) ==
                drawn + Drawn(keccak, entropy, candidates, pool, |drawn|, seats - |drawn|)
      decreases |pool|
    {
      ghost var k := |drawn|;
      var word := stream.NextWord();
      DrawnStep(keccak, entropy, candidates, pool, k, seats - k);
      var selected := Select(candidates, pool, word % total);
      var index := pool[selected];
      WeightWithout(candidates, pool, selected);
      pool := Without(pool, selected);
      total := total - WeightAt(candidates, index);
      ghost var rest := Drawn(keccak, entropy, candidates, pool, k + 1, seats - k - 1);
      assert drawn + ([index] + rest) == (drawn + [index]) + rest;
      drawn := drawn + [index];
    }
    DrawnStep(keccak, entropy, candidates, pool, |drawn|, seats - |drawn|);
    assert drawn + [] == drawn;
    r := Success(drawn);
  }

  lemma DrawnStep(keccak: Keccak, entropy: seq<u8>, candidates: seq<Candidate>, pool: seq<nat>, k: nat, seats: nat)
    ensures var total := WeightOf(candidates, pool);
            if seats == 0 || pool == [] || total == 0 then Drawn(keccak, entropy, candidates, pool, k, seats) == []
            else
              var p := Pick(candidates, pool, WordAt(keccak, entropy, k) % total);
              p < |pool| && Drawn(keccak, entropy, candidates, pool, k, seats) ==
                            [pool[p]] + Drawn(keccak, entropy, candidates, Without(pool, p), k + 1, seats - 1)
  {
  }

  /**
   Each seat goes to the candidate whose cumulative interval contains the next word modulo the weight still
   in the pool, and the draw goes on from the pool without it.
   */
  lemma EachSeatCovers(keccak: Keccak, entropy: seq<u8>, candidates: seq<Candidate>, pool: seq<nat>, k: nat, seats: nat)
    requires Drawn(keccak, entropy, candidates, pool, k, seats) != []
    ensures var drawn, total := Drawn(keccak, entropy, candidates, pool, k, seats), WeightOf(candidates, pool);
            && total > 0
            && var r := WordAt(keccak, entropy, k) % total;
            && var p := Pick(candidates, pool, r);
            && drawn[0] == pool[p]
            && WeightOf(candidates, pool[..p]) <= r < WeightOf(candidates, pool[..p]) + WeightAt(candidates, pool[p])
            && drawn[1..] == Drawn(keccak, entropy, candidates, Without(pool, p), k + 1, seats - 1)
            && WeightOf(candidates, Without(pool, p)) == total - WeightAt(candidates, pool[p])
  {
    hide *;
    DrawnStep(keccak, entropy, candidates, pool, k, seats);
    var total := WeightOf(candidates, pool);
    var r := WordAt(keccak, entropy, k) % total;
    PickCovers(candidates, pool, r);
    WeightWithout(candidates, pool, Pick(candidates, pool, r));
  }
}
