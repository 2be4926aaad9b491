/**
 A coinbase carried twice. Two blocks of one height may carry the very same coinbase: nothing in it names its
 block, and its outputs are written unchecked. The second writes over the outputs of the first, so the supply law
 fails; and when the second stands beside a spend of the first, the commit drops what it has just created.
 */
module Reuses {
  import opened Wrappers
  import opened Words
  import opened Ranking
  import opened Calendar
  import opened Transactions
  import opened Ledgers
  import opened Worths
  import opened Overlays
  import opened Supply

  const ALICE := Address(Devnet, 7, 8)
  /** The reward of the first slots, and what the treasury takes of it. */
  const REWARD: nat := 9_792_158
  const SHARE: nat := 605_155
  /** The slots before the one at which the first coinbase has matured. */
  const LAST_YOUNG: nat := MATURITY

  /** The coinbase of a miner at a height, in the first slots. */
  function Claim(rules: Rules, payee: Address, height: nat): Transaction {
    Transaction(Coinbase, 0, [], [TxOut(payee, REWARD - SHARE), TxOut(rules.treasury, SHARE)],
      LittleEndianBytes(height, 8))
  }

  function ClaimBlock(rules: Rules, payee: Address, height: nat): Payload {
    Payload(height, [Claim(rules, payee, height)])
  }

  lemma FirstRewards(slot: nat)
    requires 1 <= slot <= LAST_YOUNG + 1
    ensures RewardOfSlot(slot) == REWARD && TreasuryActiveAtSlot(slot) && TreasuryShareOf(REWARD) == SHARE
  {
    assert EclipseOfSlot(slot) == 0 && (slot - 1) % BLOCKS_PER_ECLIPSE == slot - 1;
  }

  lemma ClaimSum(rules: Rules, payee: Address, height: nat)
    ensures Sum(Claim(rules, payee, height).outputs) == REWARD
  {
    var o := Claim(rules, payee, height).outputs;
    assert o[1..] == [TxOut(rules.treasury, SHARE)] && o[1..][1..] == [];
    assert Sum([]) == 0;
  }

  lemma ClaimIsValid(rules: Rules, payee: Address, slot: nat, height: nat)
    requires 1 <= slot <= LAST_YOUNG + 1 && Fits(height, 8)
    ensures CoinbaseRefusal(rules, slot, height, 0, Claim(rules, payee, height)).None?
  {
    hide RewardOfSlot, LittleEndian, LittleEndianBytes, Sum, TreasuryActiveAtSlot, TreasuryShareOf, Pow256;
    FirstRewards(slot);
    ClaimSum(rules, payee, height);
    LittleEndianOfBytes(height, 8);
  }

  /** What a claim writes over a pool. */
  ghost function Claimed(rules: Rules, payee: Address, height: nat, pool: Pool, slot: nat): Pool {
    var id := rules.txId(Claim(rules, payee, height));
    pool[OutputRef(id, 0) := Entry(payee, REWARD - SHARE, Some(slot))]
        [OutputRef(id, 1) := Entry(rules.treasury, SHARE, Some(slot))]
  }

  lemma ClaimWrites(rules: Rules, payee: Address, height: nat, pool: Pool, slot: nat)
    ensures var tx := Claim(rules, payee, height);
            Created(pool, rules.txId(tx), 0, tx.outputs, Some(slot)) == Claimed(rules, payee, height, pool, slot)
  {
    var id, o := rules.txId(Claim(rules, payee, height)), Claim(rules, payee, height).outputs;
    assert o[1..] == [TxOut(rules.treasury, SHARE)] && o[1..][1..] == [];
    var once := pool[OutputRef(id, 0) := Entry(payee, REWARD - SHARE, Some(slot))];
    var twice := once[OutputRef(id, 1) := Entry(rules.treasury, SHARE, Some(slot))];
    assert Created(pool, id, 0, o, Some(slot)) == Created(once, id, 1, o[1..], Some(slot));
    assert Created(once, id, 1, o[1..], Some(slot)) == Created(twice, id, 2, [], Some(slot)) == twice;
  }

  /** A block that carries a claim alone is accepted in the first slots, whatever the ledger holds. */
  lemma ClaimApplies(rules: Rules, payee: Address, books: Books, height: nat)
    requires 1 <= books.applied <= LAST_YOUNG + 1 && height > 0 && Fits(height, 8)
    ensures var next := Apply(rules, books, height, [Claim(rules, payee, height)]);
            && next.Success? && next.value.applied == books.applied + 1
            && next.value.utxos == Claimed(rules, payee, height, books.utxos, books.applied)
            && next.value.spent == books.spent
            && next.value.emitted == SaturatingAdd(books.emitted, REWARD)
  {
    hide RewardOfSlot, Created, Claimed, Sum, Pow256, CoinbaseRefusal;
    var tx := Claim(rules, payee, height);
    var txs := [tx];
    assert txs[1..] == [];
    assert Coinbases([]) == 0 && Fees([]) == 0;
    FirstRewards(books.applied);
    ClaimIsValid(rules, payee, books.applied, height);
    ClaimWrites(rules, payee, height, books.utxos, books.applied);
    assert ValidateTxs(rules, books, height, 0, txs, EMPTY_SCRATCH) ==
           ValidateTxs(rules, books, height, 0, [], EMPTY_SCRATCH) == Success(EMPTY_SCRATCH);
    var made := CommitTx(rules, books, tx);
    assert CommitTxs(rules, books, txs) == CommitTxs(rules, made, []) == made;
    assert made.utxos - {} == made.utxos && made.spent + {} == made.spent;
  }

  // ----- the supply law

  lemma ClaimIsWorthReward(rules: Rules, payee: Address, height: nat, slot: nat)
    ensures Worth(Claimed(rules, payee, height, map[], slot)) == REWARD
  {
    hide Worth, Sum;
    ClaimWrites(rules, payee, height, map[], slot);
    ClaimSum(rules, payee, height);
    MadeIsWorth(rules.txId(Claim(rules, payee, height)), 0, Claim(rules, payee, height).outputs, Some(slot));
  }

  /** Under any digest, two blocks of one height with one coinbase emit two rewards and leave one unspent. */
  lemma TwoBlocksOneCoinbase(rules: Rules, height: nat)
    requires 0 < height <= U64_MAX
    ensures var blocks := [ClaimBlock(rules, ALICE, height), ClaimBlock(rules, ALICE, height)];
            var end := Replay(rules, GENESIS_BOOKS, blocks);
            && end.Success? && Worth(end.value.utxos) == REWARD && end.value.emitted == 2 * REWARD
            && !NothingWasted(rules, GENESIS_BOOKS, blocks)
  {
    hide Apply, Worth, Claimed, NothingWasted, Pow256;
    var block := ClaimBlock(rules, ALICE, height);
    var blocks := [block, block];
    U64Fits();
    ClaimApplies(rules, ALICE, GENESIS_BOOKS, height);
    var once := Apply(rules, GENESIS_BOOKS, height, block.txs).value;
    ClaimApplies(rules, ALICE, once, height);
    var twice := Apply(rules, once, height, block.txs).value;
    assert blocks[1..] == [block] && blocks[1..][1..] == [];
    assert Replay(rules, twice, []) == Success(twice);
    assert Replay(rules, once, [block]) == Success(twice);
    SecondClaimCovers(rules, height);
    ClaimIsWorthReward(rules, ALICE, height, 2);
    UnspentIsEmitted(rules, blocks);
  }

  lemma SecondClaimCovers(rules: Rules, height: nat)
    ensures Claimed(rules, ALICE, height, Claimed(rules, ALICE, height, map[], 1), 2) ==
            Claimed(rules, ALICE, height, map[], 2)
  {
  }

  // ----- the overlay

  /** Alice spends her output of the first claim back to herself. */
  function Spend(rules: Rules): Transaction {
    Transaction(Transfer, 0, [TxIn(OutputRef(rules.txId(Claim(rules, ALICE, 1)), 0), 7, 0)],
      [TxOut(ALICE, REWARD - SHARE)], [])
  }

  /** Blocks of heights 1 to n, each with its claim. */
  ghost function ClaimBlocks(rules: Rules, n: nat): seq<Payload> {
    if n == 0 then [] else ClaimBlocks(rules, n - 1) + [ClaimBlock(rules, ALICE, n)]
  }

  /** A block of height 1, sorted, that spends the first claim and carries it again. */
  function MergedBlock(rules: Rules): Payload {
    var spend, claim := Spend(rules), Claim(rules, ALICE, 1);
    Payload(1, if rules.txId(spend) < rules.txId(claim) then [spend, claim] else [claim, spend])
  }

  /** The eleven transactions of the history have distinct ids. */
  ghost predicate Apart(rules: Rules) {
    && (forall h, k | 1 <= h < k <= LAST_YOUNG ::
          rules.txId(Claim(rules, ALICE, h)) != rules.txId(Claim(rules, ALICE, k)))
    && forall h | 1 <= h <= LAST_YOUNG :: rules.txId(Claim(rules, ALICE, h)) != rules.txId(Spend(rules))
  }

  /** Some digests keep them apart: the extra field and the type are enough. */
  lemma SomeDigestsKeepApart(treasury: Address)
    ensures Apart(Rules((tx: Transaction) => if tx.txType.Coinbase? then LittleEndian(tx.extra) else 0, treasury))
  {
    hide LittleEndian, LittleEndianBytes;
    var rules := Rules((tx: Transaction) => if tx.txType.Coinbase? then LittleEndian(tx.extra) else 0, treasury);
    forall h | 1 <= h <= LAST_YOUNG ensures rules.txId(Claim(rules, ALICE, h)) == h {
      SmallFits(h);
      LittleEndianOfBytes(h, 8);
    }
  }

  lemma SmallFits(h: nat)
    requires h <= U64_MAX
    ensures Fits(h, 8)
  {
    U64Fits();
  }

  lemma {:induction false} ReplayAppend(rules: Rules, books: Books, blocks: seq<Payload>, last: Payload)
    requires Replay(rules, books, blocks).Success?
    ensures Replay(rules, books, blocks + [last]) ==
            Apply(rules, Replay(rules, books, blocks).value, last.height, last.txs)
    decreases |blocks|
  {
    hide Apply;
    if blocks == [] {
      var next := Apply(rules, books, last.height, last.txs);
      assert ([] + [last])[0] == last && ([] + [last])[1..] == [];
      assert next.Success? ==> Replay(rules, next.value, []) == next;
    } else {
      ReplayAppend(rules, Apply(rules, books, blocks[0].height, blocks[0].txs).value, blocks[1..], last);
      assert (blocks + [last])[0] == blocks[0] && (blocks + [last])[1..] == blocks[1..] + [last];
    }
  }

  /** The ledger after the first n claims: the first one stands unspent, and every output is of a claim. */
  ghost predicate Grown(rules: Rules, books: Books, n: nat) {
    && books.applied == n + 1 && books.spent == {}
    && (forall r | r in books.utxos :: exists h :: 1 <= h <= n && r.tx == rules.txId(Claim(rules, ALICE, h)))
    && (n > 0 ==>
          var r := OutputRef(rules.txId(Claim(rules, ALICE, 1)), 0);
          r in books.utxos && books.utxos[r] == Entry(ALICE, REWARD - SHARE, Some(1)))
  }

  lemma GenesisGrown(rules: Rules)
    ensures Replay(rules, GENESIS_BOOKS, ClaimBlocks(rules, 0)) == Success(GENESIS_BOOKS)
            && Grown(rules, GENESIS_BOOKS, 0)
  {
  }

  lemma {:induction false} ClaimsGrow(rules: Rules, n: nat)
    requires Apart(rules) && n <= LAST_YOUNG
    ensures Replay(rules, GENESIS_BOOKS, ClaimBlocks(rules, n)).Success?
    ensures Grown(rules, Replay(rules, GENESIS_BOOKS, ClaimBlocks(rules, n)).value, n)
  {
    hide Apply, Replay, Grown, Apart;
    if n == 0 {
      GenesisGrown(rules);
    } else {
      ClaimsGrow(rules, n - 1);
      ReplayAppend(rules, GENESIS_BOOKS, ClaimBlocks(rules, n - 1), ClaimBlock(rules, ALICE, n));
      GrownStep(rules, Replay(rules, GENESIS_BOOKS, ClaimBlocks(rules, n - 1)).value, n);
    }
  }

  lemma GrownStep(rules: Rules, books: Books, n: nat)
    requires Apart(rules) && 0 < n <= LAST_YOUNG && Grown(rules, books, n - 1)
    ensures var next := Apply(rules, books, n, [Claim(rules, ALICE, n)]); next.Success? && Grown(rules, next.value, n)
  {
    hide Apply, Fits;
    SmallFits(n);
    ClaimApplies(rules, ALICE, books, n);
    var next := Apply(rules, books, n, [Claim(rules, ALICE, n)]).value;
    forall r | r in next.utxos ensures exists h :: 1 <= h <= n && r.tx == rules.txId(Claim(rules, ALICE, h)) {
      if r in books.utxos {
        var h :| 1 <= h <= n - 1 && r.tx == rules.txId(Claim(rules, ALICE, h));
      } else {
        assert r.tx == rules.txId(Claim(rules, ALICE, n));
      }
    }
  }

  lemma SpendIsValid(rules: Rules, books: Books)
    requires Apart(rules) && Grown(rules, books, LAST_YOUNG)
    ensures ValidateTransfer(rules, books, books.applied, Spend(rules), EMPTY_SCRATCH).Success?
  {
    var tx := Spend(rules);
    assert tx.inputs[1..] == [] && tx.outputs[1..] == [] && Sum([]) == 0;
    assert Sum(tx.outputs) == REWARD - SHARE;
    var one := ConsumeOne(books, map[], books.applied, tx.inputs[0], Consumed({}, 0));
    assert one.Success? && one.value.value == REWARD - SHARE;
    assert Consume(books, map[], books.applied, tx.inputs[1..], one.value) == one;
    var made := OutputRef(rules.txId(tx), 0);
    assert made !in books.utxos;
    assert Register(books, made.tx, 1, tx.outputs[1..], map[made := Entry(ALICE, REWARD - SHARE, None)]).Success?;
  }

  /** The merged block is accepted, and the output of its own coinbase is gone. */
  lemma MergedBlockIsAccepted(rules: Rules, books: Books)
    requires Apart(rules) && Grown(rules, books, LAST_YOUNG)
    ensures var next := Apply(rules, books, 1, MergedBlock(rules).txs);
            next.Success? && OutputRef(rules.txId(Claim(rules, ALICE, 1)), 0) !in next.value.utxos
  {
    hide ValidateTransfer, CoinbaseRefusal, CommitTxs, Apart, Grown, Sum;
    var spend, claim, txs := Spend(rules), Claim(rules, ALICE, 1), MergedBlock(rules).txs;
    var next := ValidateTransfer(rules, books, books.applied, spend, EMPTY_SCRATCH);
    GrownSlot(rules, books);
    SpendIsValid(rules, books);
    SmallFits(1);
    ClaimIsValid(rules, ALICE, books.applied, 1);
    SpendIsApart(rules);
    EmptySound(books, 0);
    TransferFacts(rules, books, spend, EMPTY_SCRATCH);
    assert InputRefs(spend.inputs)[0] == spend.inputs[0].output;
    assert spend.inputs[0].output in Refs(InputRefs(spend.inputs));
    assert txs[1..] == [txs[1]] && txs[1..][1..] == [];
    assert Fees([]) == 0 && Coinbases([]) == 0;
    assert Fees(txs[1..]) == 0 && Fees(txs) == 0 && Coinbases(txs) == 1;
    assert ValidateTxs(rules, books, 1, 0, [], next.value) == next;
    if txs[0] == spend {
      assert ValidateTxs(rules, books, 1, 0, txs[1..], next.value) == next;
    } else {
      assert ValidateTxs(rules, books, 1, 0, txs[1..], EMPTY_SCRATCH) == next;
    }
    assert ValidateTxs(rules, books, 1, 0, txs, EMPTY_SCRATCH) == next;
  }

  lemma GrownSlot(rules: Rules, books: Books)
    requires Grown(rules, books, LAST_YOUNG)
    ensures books.applied == LAST_YOUNG + 1
  {
  }

  lemma SpendIsApart(rules: Rules)
    requires Apart(rules)
    ensures rules.txId(Claim(rules, ALICE, 1)) != rules.txId(Spend(rules))
  {
  }

  lemma MergedBlockNamesItsOwn(rules: Rules, books: Books)
    ensures OwnCoinbaseNamed(rules, books, MergedBlock(rules).txs) == {OutputRef(rules.txId(Claim(rules, ALICE, 1)), 0)}
  {
    hide Made, LittleEndianBytes;
    var spend, claim, txs := Spend(rules), Claim(rules, ALICE, 1), MergedBlock(rules).txs;
    var id, slot := rules.txId(claim), Some(books.applied);
    assert txs[1..] == [txs[1]] && txs[1..][1..] == [];
    assert InputRefs(spend.inputs) == [OutputRef(id, 0)] && InputRefs(claim.inputs) == [];
    assert Named([]) == [] && Named([claim]) == [] + [] && Named([spend]) == [OutputRef(id, 0)] + [];
    assert Named(txs) == [OutputRef(id, 0)];
    MadeCovers(id, 0, claim.outputs, slot, 0);
    assert MadeAll(rules, [], true, slot) == map[];
    assert MadeAll(rules, [claim], true, slot) == Made(id, 0, claim.outputs, slot);
    assert MadeAll(rules, [spend], true, slot) == map[];
    assert MadeAll(rules, txs, true, slot) == Made(id, 0, claim.outputs, slot);
  }

  /**
   Why the overlay needs its condition. Ten claims from the genesis, then a block of height 1 that merges in late: it
   spends the first claim, now mature, and carries it again. It is accepted, its own coinbase output is dropped, and
   its transactions applied one at a time end elsewhere. No two digests collide.
   */
  lemma MergedCoinbaseIsDropped(rules: Rules)
    requires Apart(rules)
    ensures var before := Replay(rules, GENESIS_BOOKS, ClaimBlocks(rules, LAST_YOUNG));
            var block, own := MergedBlock(rules), OutputRef(rules.txId(Claim(rules, ALICE, 1)), 0);
            && before.Success?
            && Replay(rules, GENESIS_BOOKS, ClaimBlocks(rules, LAST_YOUNG) + [block]).Success?
            && own !in Replay(rules, GENESIS_BOOKS, ClaimBlocks(rules, LAST_YOUNG) + [block]).value.utxos
            && OwnCoinbaseNamed(rules, before.value, block.txs) == {own}
            && Apply(rules, before.value, block.height, block.txs) !=
               Sequential(rules, before.value, block.height, block.txs)
  {
    hide Apply, Replay, Sequential, OwnCoinbaseNamed, Grown, Apart;
    ClaimsGrow(rules, LAST_YOUNG);
    var before := Replay(rules, GENESIS_BOOKS, ClaimBlocks(rules, LAST_YOUNG)).value;
    MergedBlockIsAccepted(rules, before);
    MergedBlockNamesItsOwn(rules, before);
    AcceptedBlocksAgree(rules, before, 1, MergedBlock(rules).txs);
    ReplayAppend(rules, GENESIS_BOOKS, ClaimBlocks(rules, LAST_YOUNG), MergedBlock(rules));
  }
}
