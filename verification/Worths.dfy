/** What a set of unspent outputs is worth, and how creating and retiring outputs changes it. */
module Worths {
  import opened Wrappers
  import opened Words
  import opened Ranking
  import opened Transactions
  import opened Ledgers

  type Pool = map<OutputRef, Entry>

  ghost function Worth(pool: Pool): nat
    decreases |pool.Keys|
  {
    if pool.Keys == {} then 0 else
      var r :| r in pool.Keys;
      pool[r].amount + Worth(pool - {r})
  }

  /** Only the outputs at the given references. */
  ghost function At(pool: Pool, refs: set<OutputRef>): Pool {
    pool - (pool.Keys - refs)
  }

  lemma {:induction false} WorthSplit(pool: Pool, r: OutputRef)
    requires r in pool
    ensures Worth(pool) == pool[r].amount + Worth(pool - {r})
    decreases |pool.Keys|
  {
    var k :| k in pool.Keys && Worth(pool) == pool[k].amount + Worth(pool - {k});
    if k != r {
      WorthSplit(pool - {k}, r);
      WorthSplit(pool - {r}, k);
      assert (pool - {k}) - {r} == (pool - {r}) - {k};
    }
  }

  lemma WorthAdd(pool: Pool, r: OutputRef, e: Entry)
    requires r !in pool
    ensures Worth(pool[r := e]) == Worth(pool) + e.amount
  {
    WorthSplit(pool[r := e], r);
    assert pool[r := e] - {r} == pool;
  }

  lemma UnionWithout(a: Pool, b: Pool, r: OutputRef)
    requires a.Keys !! b.Keys && r in b
    ensures (a + b) - {r} == a + (b - {r}) && r in a + b && (a + b)[r] == b[r]
    ensures a.Keys !! (b - {r}).Keys
  {
  }

  /** Pools with different references add up. */
  lemma {:induction false} WorthUnion(a: Pool, b: Pool)
    requires a.Keys !! b.Keys
    ensures Worth(a + b) == Worth(a) + Worth(b)
    decreases |b.Keys|
  {
    if b.Keys == {} {
      assert b == map[] && a + b == a;
    } else {
      hide Worth;
      var r :| r in b.Keys;
      WorthSplit(b, r);
      WorthSplit(a + b, r);
      UnionWithout(a, b, r);
      WorthUnion(a, b - {r});
    }
  }

  /** A pool splits into what stands at some references and the rest. */
  lemma WorthPartition(pool: Pool, refs: set<OutputRef>)
    ensures Worth(pool) == Worth(pool - refs) + Worth(At(pool, refs))
  {
    WorthUnion(pool - refs, At(pool, refs));
    assert (pool - refs) + At(pool, refs) == pool;
  }

  /** The outputs of one transaction. */
  ghost function Made(id: Hash, index: nat, outputs: seq<TxOut>, slot: Option<nat>): Pool {
    Created(map[], id, index, outputs, slot)
  }

  lemma {:induction false} CreatedIsUnion(pool: Pool, id: Hash, index: nat, outputs: seq<TxOut>, slot: Option<nat>)
    ensures Created(pool, id, index, outputs, slot) == pool + Made(id, index, outputs, slot)
    ensures forall r | r in Made(id, index, outputs, slot) ::
              && r.tx == id && index <= r.index < index + |outputs|
              && Made(id, index, outputs, slot)[r].coinbaseSlot == slot
    decreases |outputs|
  {
    if outputs == [] {
      assert pool + map[] == pool;
    } else {
      var r := OutputRef(id, index);
      var e := Entry(outputs[0].address, outputs[0].amount, slot);
      CreatedIsUnion(pool[r := e], id, index + 1, outputs[1..], slot);
      CreatedIsUnion(map[r := e], id, index + 1, outputs[1..], slot);
      var rest := Made(id, index + 1, outputs[1..], slot);
      assert Made(id, index, outputs, slot) == map[r := e] + rest;
      assert pool[r := e] + rest == pool + (map[r := e] + rest);
    }
  }

  lemma {:induction false} MadeIsWorth(id: Hash, index: nat, outputs: seq<TxOut>, slot: Option<nat>)
    ensures Worth(Made(id, index, outputs, slot)) == Sum(outputs)
    decreases |outputs|
  {
    if outputs != [] {
      var r := OutputRef(id, index);
      var e := Entry(outputs[0].address, outputs[0].amount, slot);
      var rest := Made(id, index + 1, outputs[1..], slot);
      CreatedIsUnion(map[r := e], id, index + 1, outputs[1..], slot);
      CreatedIsUnion(map[], id, index + 1, outputs[1..], slot);
      MadeIsWorth(id, index + 1, outputs[1..], slot);
      WorthAdd(rest, r, e);
      assert map[r := e] + rest == rest[r := e];
      assert map[][r := e] == map[r := e];
    }
  }

  /** Exactly the indices of the outputs are references of the transaction. */
  lemma {:induction false} MadeCovers(id: Hash, index: nat, outputs: seq<TxOut>, slot: Option<nat>, k: nat)
    requires k < |outputs|
    ensures OutputRef(id, index + k) in Made(id, index, outputs, slot)
    decreases |outputs|
  {
    var r := OutputRef(id, index);
    var e := Entry(outputs[0].address, outputs[0].amount, slot);
    CreatedIsUnion(map[r := e], id, index + 1, outputs[1..], slot);
    assert map[][r := e] == map[r := e];
    if k > 0 {
      MadeCovers(id, index + 1, outputs[1..], slot, k - 1);
    }
  }
}
