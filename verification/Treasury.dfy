/**
 The treasury. The node recomputes what the calendar pays the treasury and compares it, now and then, with the unspent
 outputs of the treasury's address. They agree exactly as long as what was taken from that address equals what was
 paid to it beside the shares.
 */
module Treasuries {
  import opened Wrappers
  import opened Words
  import opened Ranking
  import opened Calendar
  import opened Transactions
  import opened Ledgers
  import opened Worths
  import opened Overlays
  import opened Supply

  // ----- what an address holds

  /** The outputs of one address. */
  ghost function Of(pool: Pool, owner: Address): Pool {
    pool - (set r | r in pool && pool[r].address != owner)
  }

  ghost function Held(pool: Pool, owner: Address): nat {
    Worth(Of(pool, owner))
  }

  lemma HeldUnion(a: Pool, b: Pool, owner: Address)
    requires a.Keys !! b.Keys
    ensures Held(a + b, owner) == Held(a, owner) + Held(b, owner)
  {
    hide Worth;
    assert Of(a + b, owner) == Of(a, owner) + Of(b, owner);
    WorthUnion(Of(a, owner), Of(b, owner));
  }

  lemma HeldPartition(pool: Pool, refs: set<OutputRef>, owner: Address)
    ensures Held(pool, owner) == Held(pool - refs, owner) + Held(At(pool, refs), owner)
  {
    HeldUnion(pool - refs, At(pool, refs), owner);
    assert (pool - refs) + At(pool, refs) == pool;
  }

  lemma HeldIsLess(pool: Pool, owner: Address)
    ensures Held(pool, owner) <= Worth(pool)
  {
    var others := set r | r in pool && pool[r].address != owner;
    WorthPartition(pool, others);
  }

  lemma HeldNone(pool: Pool, owner: Address)
    ensures Held(pool - (pool.Keys - {}), owner) == 0
  {
    assert Of(pool - (pool.Keys - {}), owner) == map[];
  }

  /** One output less to count. */
  lemma HeldStep(pool: Pool, rest: set<OutputRef>, r: OutputRef, owner: Address)
    requires rest <= pool.Keys && r in rest
    ensures var part, less := pool - (pool.Keys - rest), pool - (pool.Keys - (rest - {r}));
            Held(part, owner) == Held(less, owner) + if pool[r].address == owner then pool[r].amount else 0
  {
    var part, less := pool - (pool.Keys - rest), pool - (pool.Keys - (rest - {r}));
    assert part == less + map[r := pool[r]];
    HeldUnion(less, map[r := pool[r]], owner);
    HeldSolo(r, pool[r], owner);
  }

  // ----- what outputs pay an address

  ghost function PaidTo(outputs: seq<TxOut>, owner: Address): nat {
    if outputs == [] then 0 else
      (if outputs[0].address == owner then outputs[0].amount else 0) + PaidTo(outputs[1..], owner)
  }

  lemma HeldSolo(r: OutputRef, e: Entry, owner: Address)
    ensures Held(map[r := e], owner) == if e.address == owner then e.amount else 0
  {
    var solo: Pool := map[r := e];
    if e.address == owner {
      assert Of(solo, owner) == solo;
      WorthSplit(solo, r);
      assert solo - {r} == map[];
    } else {
      assert Of(solo, owner) == map[];
    }
  }

  lemma {:induction false} HeldMade(id: Hash, index: nat, outputs: seq<TxOut>, slot: Option<nat>, owner: Address)
    ensures Held(Made(id, index, outputs, slot), owner) == PaidTo(outputs, owner)
    decreases |outputs|
  {
    hide Worth, Of, Made;
    if outputs == [] {
      HeldNothing(id, index, slot, owner);
    } else {
      var r := OutputRef(id, index);
      var e := Entry(outputs[0].address, outputs[0].amount, slot);
      MadeStep(id, index, outputs, slot);
      CreatedIsUnion(map[], id, index + 1, outputs[1..], slot);
      HeldMade(id, index + 1, outputs[1..], slot, owner);
      HeldSolo(r, e, owner);
      HeldUnion(map[r := e], Made(id, index + 1, outputs[1..], slot), owner);
    }
  }

  lemma HeldNothing(id: Hash, index: nat, slot: Option<nat>, owner: Address)
    ensures Held(Made(id, index, [], slot), owner) == 0 && Held(map[], owner) == 0
  {
    assert Of(map[], owner) == map[];
  }

  /** What all outputs of a payload pay an address. */
  ghost function PaidAll(txs: seq<Transaction>, owner: Address): nat {
    if txs == [] then 0 else PaidTo(txs[0].outputs, owner) + PaidAll(txs[1..], owner)
  }

  /** What a payload pays the treasury beside the share of its coinbase. */
  ghost function Donated(txs: seq<Transaction>, owner: Address, active: bool): nat {
    if txs == [] then 0 else
      var outputs := txs[0].outputs;
      PaidTo(if txs[0].txType.Coinbase? && active && outputs != [] then outputs[..1] else outputs, owner)
      + Donated(txs[1..], owner, active)
  }

  lemma {:induction false} HeldPayload(
    rules: Rules, books: Books, txs: seq<Transaction>, owner: Address)
    requires SortedById(rules, txs)
    ensures Held(Minting(rules, books, txs), owner) + Held(MadeAll(rules, txs, false, None), owner) ==
            PaidAll(txs, owner)
    decreases |txs|
  {
    hide Made, Held, SortedById, PaidTo;
    if txs == [] {
      HeldNothing(0, 0, None, owner);
    } else {
      var slot := if txs[0].txType.Coinbase? then Some(books.applied) else None;
      var head := Made(rules.txId(txs[0]), 0, txs[0].outputs, slot);
      SortedTail(rules, txs);
      HeldPayload(rules, books, txs[1..], owner);
      HeldMade(rules.txId(txs[0]), 0, txs[0].outputs, slot, owner);
      HeadIsApart(rules, txs, slot, false, None);
      HeadIsApart(rules, txs, slot, true, Some(books.applied));
      var transfers, minted := MadeAll(rules, txs[1..], false, None), Minting(rules, books, txs[1..]);
      HeldUnion(head, transfers, owner);
      HeldUnion(head, minted, owner);
      assert map[] + transfers == transfers && map[] + minted == minted;
    }
  }

  // ----- the shares

  /** What the calendar pays the treasury at a slot. */
  ghost function ShareAt(slot: nat): nat
    requires slot <= LAST_SLOT
  {
    if TreasuryActiveAtSlot(slot) then TreasuryShareOf(RewardOfSlot(slot)) else 0
  }

  /** The sum of the shares of slots 1 to n. */
  ghost function SharesOf(n: nat): nat
    requires n <= LAST_SLOT
  {
    if n == 0 then 0 else SharesOf(n - 1) + ShareAt(n)
  }

  lemma ShareIsSmall(slot: nat)
    requires slot <= LAST_SLOT
    ensures ShareAt(slot) <= RewardOfSlot(slot)
  {
    hide RewardOfSlot;
    Fraction(RewardOfSlot(slot));
  }

  lemma Fraction(reward: nat)
    ensures TreasuryShareOf(reward) <= reward
  {
  }

  lemma {:induction false} SharesWithinMinted(n: nat)
    requires n <= LAST_SLOT
    ensures SharesOf(n) <= Minted(n)
  {
    hide ShareAt, RewardOfSlot;
    if n > 0 {
      SharesWithinMinted(n - 1);
      ShareIsSmall(n);
    }
  }

  /** A valid coinbase of an active slot pays the treasury its share in the second output. */
  lemma CoinbasePaysShare(rules: Rules, slot: nat, height: nat, fees: nat, tx: Transaction)
    requires CoinbaseRefusal(rules, slot, height, fees, tx).None?
    ensures slot <= LAST_SLOT
    ensures var rest := if TreasuryActiveAtSlot(slot) && tx.outputs != [] then tx.outputs[..1] else tx.outputs;
            PaidTo(tx.outputs, rules.treasury) == ShareAt(slot) + PaidTo(rest, rules.treasury)
  {
    hide RewardOfSlot, Sum, LittleEndian;
    if TreasuryActiveAtSlot(slot) {
      var o := tx.outputs;
      assert |o| == 2 && o[1].address == rules.treasury && o[1].amount == ShareAt(slot);
      assert o[1..] == [o[1]] && o[1..][1..] == [] && o[..1] == [o[0]] && o[..1][1..] == [];
      assert PaidTo([], rules.treasury) == 0;
      assert PaidTo(o[1..], rules.treasury) == ShareAt(slot);
    }
  }

  /** Everything an accepted payload pays the treasury: its coinbase's share, and donations. */
  lemma {:induction false} PaidIsShareAndDonations(
    rules: Rules, books: Books, height: nat, fees: nat, txs: seq<Transaction>, scratch: Scratch)
    requires ValidateTxs(rules, books, height, fees, txs, scratch).Success? && books.applied <= LAST_SLOT
    ensures PaidAll(txs, rules.treasury) ==
            Coinbases(txs) * ShareAt(books.applied)
            + Donated(txs, rules.treasury, TreasuryActiveAtSlot(books.applied))
    decreases |txs|
  {
    hide CoinbaseRefusal, ValidateTransfer, PaidTo, ShareAt, TreasuryActiveAtSlot;
    if txs != [] {
      var next := ValidateTx(rules, books, height, fees, txs[0], scratch).value;
      PaidIsShareAndDonations(rules, books, height, fees, txs[1..], next);
      if txs[0].txType.Coinbase? {
        CoinbasePaysShare(rules, books.applied, height, fees, txs[0]);
        var share := ShareAt(books.applied);
        assert Coinbases(txs) * share == Coinbases(txs[1..]) * share + share;
      }
    }
  }

  // ----- one block

  /** What a block takes from an address: outputs it consumes, and unspent ones its coinbase overwrites. */
  ghost function Taken(rules: Rules, books: Books, txs: seq<Transaction>, owner: Address): nat {
    var minted, named := Minting(rules, books, txs), Refs(Named(txs));
    Held(At(books.utxos, minted.Keys + named), owner)
    + Held(At(MadeAll(rules, txs, false, None), named), owner) + Held(At(minted, named), owner)
  }

  lemma HeldLeft(ledger: Pool, transfers: Pool, minted: Pool, spent: set<OutputRef>, owner: Address)
    requires transfers.Keys !! minted.Keys && transfers.Keys !! ledger.Keys
    ensures Held((ledger + (transfers + minted)) - spent, owner)
            + Held(At(ledger, minted.Keys + spent), owner)
            + Held(At(transfers, spent), owner) + Held(At(minted, spent), owner)
            == Held(ledger, owner) + Held(transfers, owner) + Held(minted, owner)
  {
    hide Held, At;
    var kept := ledger - (minted.Keys + spent);
    ThreeParts(ledger, transfers, minted, spent);
    HeldUnion(kept + (transfers - spent), minted - spent, owner);
    HeldUnion(kept, transfers - spent, owner);
    HeldPartition(ledger, minted.Keys + spent, owner);
    HeldPartition(transfers, spent, owner);
    HeldPartition(minted, spent, owner);
  }

  lemma ThreeParts(ledger: Pool, transfers: Pool, minted: Pool, spent: set<OutputRef>)
    requires transfers.Keys !! minted.Keys && transfers.Keys !! ledger.Keys
    ensures (ledger + (transfers + minted)) - spent ==
            ((ledger - (minted.Keys + spent)) + (transfers - spent)) + (minted - spent)
  {
    var left := (ledger + (transfers + minted)) - spent;
    var right := ((ledger - (minted.Keys + spent)) + (transfers - spent)) + (minted - spent);
    assert left.Keys == right.Keys;
    assert left == right;
  }

  /** The pool an accepted block with a height leaves. */
  lemma PoolAfter(rules: Rules, books: Books, height: nat, txs: seq<Transaction>)
    requires Apply(rules, books, height, txs).Success? && height > 0
    ensures var transfers, minted := MadeAll(rules, txs, false, None), Minting(rules, books, txs);
            && Apply(rules, books, height, txs).value.utxos == (books.utxos + (transfers + minted)) - Refs(Named(txs))
            && transfers.Keys !! minted.Keys && transfers.Keys !! books.utxos.Keys
  {
    hide ValidateTxs, CommitTxs, Worth, MadeAll, SortedById, Fees, Coinbases, Named, Sound;
    var end := ValidateTxs(rules, books, height, Fees(txs), txs, EMPTY_SCRATCH).value;
    var transfers := MadeAll(rules, txs, false, None);
    EmptySound(books, 0);
    PayloadFacts(rules, books, height, Fees(txs), txs, EMPTY_SCRATCH);
    assert map[] + transfers == transfers && {} + Refs(Named(txs)) == Refs(Named(txs));
    SoundApart(books, end);
    CommitIsUnion(rules, books, txs);
    TransfersApartFromCoinbase(rules, txs, Some(books.applied));
  }

  /** What an accepted block with a height pays the treasury in all. */
  lemma BlockPays(rules: Rules, books: Books, height: nat, txs: seq<Transaction>)
    requires Apply(rules, books, height, txs).Success? && height > 0
    ensures books.applied <= LAST_SLOT
    ensures var owner := rules.treasury;
            Held(Minting(rules, books, txs), owner) + Held(MadeAll(rules, txs, false, None), owner) ==
            ShareAt(books.applied) + Donated(txs, owner, TreasuryActiveAtSlot(books.applied))
  {
    hide ValidateTxs, Commit, Held, MadeAll, SortedById, Fees, Coinbases, Donated, PaidAll, ShareAt,
      TreasuryActiveAtSlot;
    AcceptedInCalendar(rules, books, height, txs);
    HeldPayload(rules, books, txs, rules.treasury);
    PaidIsShareAndDonations(rules, books, height, Fees(txs), txs, EMPTY_SCRATCH);
  }

  /** What an accepted block with a height does to the unspent outputs of the treasury. */
  lemma BlockTreasury(rules: Rules, books: Books, height: nat, txs: seq<Transaction>)
    requires Apply(rules, books, height, txs).Success? && height > 0
    ensures books.applied <= LAST_SLOT
    ensures var owner := rules.treasury;
            Held(Apply(rules, books, height, txs).value.utxos, owner) + Taken(rules, books, txs, owner) ==
            Held(books.utxos, owner) + ShareAt(books.applied)
            + Donated(txs, owner, TreasuryActiveAtSlot(books.applied))
  {
    hide Apply, Held, MadeAll, Named, At, Donated, ShareAt, TreasuryActiveAtSlot;
    PoolAfter(rules, books, height, txs);
    BlockPays(rules, books, height, txs);
    HeldLeft(books.utxos, MadeAll(rules, txs, false, None), Minting(rules, books, txs), Refs(Named(txs)),
             rules.treasury);
  }

  // ----- whole histories

  /** Everything the blocks of a history take from an address. */
  ghost function TakenOver(rules: Rules, books: Books, blocks: seq<Payload>, owner: Address): nat
    decreases |blocks|
  {
    if blocks == [] || Apply(rules, books, blocks[0].height, blocks[0].txs).Failure? then 0 else
      Taken(rules, books, blocks[0].txs, owner) +
      TakenOver(rules, Apply(rules, books, blocks[0].height, blocks[0].txs).value, blocks[1..], owner)
  }

  /** Everything the blocks of a history pay the treasury beside the shares. */
  ghost function DonatedOver(rules: Rules, books: Books, blocks: seq<Payload>): nat
    decreases |blocks|
  {
    if blocks == [] || Apply(rules, books, blocks[0].height, blocks[0].txs).Failure? then 0 else
      Donated(blocks[0].txs, rules.treasury, TreasuryActiveAtSlot(books.applied)) +
      DonatedOver(rules, Apply(rules, books, blocks[0].height, blocks[0].txs).value, blocks[1..])
  }

  lemma {:induction false} HistoryTreasury(rules: Rules, books: Books, blocks: seq<Payload>)
    requires Replay(rules, books, blocks).Success? && 1 <= books.applied <= LAST_SLOT + 1
    requires forall block | block in blocks :: block.height > 0
    ensures var end := Replay(rules, books, blocks).value;
            && books.applied <= end.applied <= LAST_SLOT + 1
            && Held(end.utxos, rules.treasury) + TakenOver(rules, books, blocks, rules.treasury)
               + SharesOf(books.applied - 1) ==
               Held(books.utxos, rules.treasury) + DonatedOver(rules, books, blocks) + SharesOf(end.applied - 1)
    decreases |blocks|
  {
    hide Apply, Held, Taken, Donated, ShareAt, TreasuryActiveAtSlot;
    if blocks != [] {
      assert blocks[0] in blocks;
      BlockTreasury(rules, books, blocks[0].height, blocks[0].txs);
      BlockCounts(rules, books, blocks[0].height, blocks[0].txs);
      HistoryTreasury(rules, Apply(rules, books, blocks[0].height, blocks[0].txs).value, blocks[1..]);
    }
  }

  /**
   On every accepted history of blocks with heights the unspent outputs of the treasury are worth the shares the
   calendar paid it, exactly when what was taken from its address equals what was paid to it beside them.
   */
  lemma TreasuryIsShares(rules: Rules, blocks: seq<Payload>)
    requires Replay(rules, GENESIS_BOOKS, blocks).Success? && forall block | block in blocks :: block.height > 0
    ensures var end := Replay(rules, GENESIS_BOOKS, blocks).value;
            && 1 <= end.applied <= LAST_SLOT + 1
            && (Held(end.utxos, rules.treasury) == SharesOf(end.applied - 1) <==>
                TakenOver(rules, GENESIS_BOOKS, blocks, rules.treasury) == DonatedOver(rules, GENESIS_BOOKS, blocks))
  {
    hide Replay, TakenOver, DonatedOver;
    HistoryTreasury(rules, GENESIS_BOOKS, blocks);
    HeldNothing(0, 0, None, rules.treasury);
  }

  /** What an address holds never exceeds the emission. */
  lemma HeldWithinEmission(rules: Rules, blocks: seq<Payload>, owner: Address)
    requires Replay(rules, GENESIS_BOOKS, blocks).Success?
    ensures Held(Replay(rules, GENESIS_BOOKS, blocks).value.utxos, owner) <= CAP_ATOMIC
  {
    hide *;
    UnspentIsEmitted(rules, blocks);
    EmissionWithinCap(rules, blocks);
    HeldIsLess(Replay(rules, GENESIS_BOOKS, blocks).value.utxos, owner);
  }
}
