/**
 The supply. On every history a ledger accepts, what was created is what was consumed plus what was
 emitted; the unspent outputs never exceed the emission, nor the emission the calendar, nor the calendar
 the cap. They equal the emission exactly when no coinbase overwrites an unspent output or loses its own.
 */
module Supply {
  import opened Wrappers
  import opened Words
  import opened Ranking
  import opened Calendar
  import opened Transactions
  import opened Ledgers
  import opened Worths
  import opened Overlays

  // ----- one block

  ghost function OutputTotal(txs: seq<Transaction>): nat {
    if txs == [] then 0 else Sum(txs[0].outputs) + OutputTotal(txs[1..])
  }

  /** What the slot of an accepted block emits. */
  ghost function RewardOf(books: Books, height: nat): nat {
    if height == 0 || books.applied > LAST_SLOT then 0 else RewardOfSlot(books.applied)
  }

  /** The outputs of a payload are what it consumed plus what its coinbase may mint. */
  lemma {:induction false} PayloadBalance(
    rules: Rules, books: Books, height: nat, fees: nat, txs: seq<Transaction>, scratch: Scratch)
    requires ValidateTxs(rules, books, height, fees, txs, scratch).Success? && books.applied <= LAST_SLOT
    ensures OutputTotal(txs) + Fees(txs) == Moved(txs) + Coinbases(txs) * (RewardOfSlot(books.applied) + fees)
    decreases |txs|
  {
    hide CoinbaseRefusal, ValidateTransfer, Sum, RewardOfSlot;
    if txs != [] {
      var next := ValidateTx(rules, books, height, fees, txs[0], scratch).value;
      PayloadBalance(rules, books, height, fees, txs[1..], next);
      var each := RewardOfSlot(books.applied) + fees;
      if txs[0].txType.Coinbase? {
        CoinbaseNamesNothing(rules, books.applied, height, fees, txs[0]);
        assert Coinbases(txs) * each == Coinbases(txs[1..]) * each + each;
      }
    }
  }

  lemma {:induction false} CommitCounts(rules: Rules, books: Books, txs: seq<Transaction>)
    ensures CommitTxs(rules, books, txs).created == SaturatingAdd(books.created, OutputTotal(txs))
    ensures books.applied <= LAST_SLOT && Coinbases(txs) == 1 ==>
              CommitTxs(rules, books, txs).emitted == SaturatingAdd(books.emitted, RewardOfSlot(books.applied))
    ensures Coinbases(txs) == 0 ==> CommitTxs(rules, books, txs).emitted == books.emitted
    decreases |txs|
  {
    hide Created, Sum, RewardOfSlot;
    if txs != [] {
      CommitCounts(rules, CommitTx(rules, books, txs[0]), txs[1..]);
      SaturatingChain(books.created, Sum(txs[0].outputs), OutputTotal(txs[1..]));
    }
  }

  lemma NothingMoves()
    ensures OutputTotal([]) == 0 && Moved([]) == 0 && Coinbases([]) == 0 && Named([]) == []
  {
  }

  /** What an accepted block does to the counters, and the balance that makes them agree. */
  lemma BlockCounts(rules: Rules, books: Books, height: nat, txs: seq<Transaction>)
    requires Apply(rules, books, height, txs).Success?
    ensures var after, reward := Apply(rules, books, height, txs).value, RewardOf(books, height);
            && after.applied == books.applied + 1
            && after.created == SaturatingAdd(books.created, OutputTotal(txs))
            && after.spentValue == SaturatingAdd(books.spentValue, Moved(txs))
            && after.emitted == SaturatingAdd(books.emitted, reward)
            && OutputTotal(txs) == Moved(txs) + reward
            && (OutputTotal(txs) > 0 ==> height > 0)
            && (height > 0 ==> books.applied <= LAST_SLOT)
  {
    hide ValidateTxs, CommitTxs, RewardOfSlot, Worth, MadeAll, SortedById, Fees, Coinbases, Moved, OutputTotal, Named;
    CommitCounts(rules, books, txs);
    if height == 0 {
      NothingMoves();
    } else {
      AcceptedInCalendar(rules, books, height, txs);
      EmptySound(books, 0);
      PayloadFacts(rules, books, height, Fees(txs), txs, EMPTY_SCRATCH);
      PayloadBalance(rules, books, height, Fees(txs), txs, EMPTY_SCRATCH);
    }
  }

  // ----- the unspent outputs

  /** What the coinbase of a block wastes: older outputs it overwrites, and its own that the block then consumes. */
  ghost function Lost(rules: Rules, books: Books, txs: seq<Transaction>): nat {
    var minted, named := Minting(rules, books, txs), Refs(Named(txs));
    Worth(At(books.utxos - named, minted.Keys)) + Worth(At(minted, named))
  }

  lemma {:induction false} MintingIsWorth(
    rules: Rules, books: Books, height: nat, fees: nat, txs: seq<Transaction>, scratch: Scratch)
    requires ValidateTxs(rules, books, height, fees, txs, scratch).Success? && SortedById(rules, txs)
    ensures Worth(Minting(rules, books, txs)) + Worth(MadeAll(rules, txs, false, None)) == OutputTotal(txs)
    decreases |txs|
  {
    hide Made, Worth, CoinbaseRefusal, ValidateTransfer, SortedById, Sum;
    if txs == [] {
      EmptyIsWorthNothing();
    } else {
      var next := ValidateTx(rules, books, height, fees, txs[0], scratch).value;
      var slot := if txs[0].txType.Coinbase? then Some(books.applied) else None;
      var head := Made(rules.txId(txs[0]), 0, txs[0].outputs, slot);
      SortedTail(rules, txs);
      MintingIsWorth(rules, books, height, fees, txs[1..], next);
      MadeIsWorth(rules.txId(txs[0]), 0, txs[0].outputs, slot);
      HeadIsApart(rules, txs, slot, false, None);
      HeadIsApart(rules, txs, slot, true, Some(books.applied));
      var transfers, minted := MadeAll(rules, txs[1..], false, None), Minting(rules, books, txs[1..]);
      WorthUnion(head, transfers);
      WorthUnion(head, minted);
      assert map[] + transfers == transfers && map[] + minted == minted;
    }
  }

  lemma EmptyIsWorthNothing()
    ensures Worth(map[]) == 0
  {
  }

  /**
   The pool a block leaves: what it did not consume and did not overwrite, plus what it minted and did not consume.
   */
  lemma PoolLeft(ledger: Pool, transfers: Pool, minted: Pool, spent: set<OutputRef>)
    requires transfers.Keys !! minted.Keys && transfers.Keys !! ledger.Keys
    ensures Worth((ledger + (transfers + minted)) - spent) + Worth(At(ledger - spent, minted.Keys)) +
            Worth(At(minted, spent)) == Worth((ledger + transfers) - spent) + Worth(minted)
  {
    hide Worth, At;
    var pool := (ledger + transfers) - spent;
    WorthPartition(pool, minted.Keys);
    WorthPartition(minted, spent);
    SplitLeft(ledger, transfers, minted, spent);
    WorthUnion(pool - minted.Keys, minted - spent);
  }

  lemma SplitLeft(ledger: Pool, transfers: Pool, minted: Pool, spent: set<OutputRef>)
    requires transfers.Keys !! minted.Keys && transfers.Keys !! ledger.Keys
    ensures (ledger + (transfers + minted)) - spent == (((ledger + transfers) - spent) - minted.Keys) + (minted - spent)
    ensures At((ledger + transfers) - spent, minted.Keys) == At(ledger - spent, minted.Keys)
  {
    var left := (ledger + (transfers + minted)) - spent;
    var right := (((ledger + transfers) - spent) - minted.Keys) + (minted - spent);
    assert left.Keys == right.Keys;
    assert left == right;
    var a, b := At((ledger + transfers) - spent, minted.Keys), At(ledger - spent, minted.Keys);
    assert a.Keys == b.Keys;
    assert a == b;
  }

  /** The unspent outputs grow by the reward, less what the coinbase wastes. */
  lemma BlockSupply(rules: Rules, books: Books, height: nat, txs: seq<Transaction>)
    requires Apply(rules, books, height, txs).Success?
    ensures Worth(Apply(rules, books, height, txs).value.utxos) + Lost(rules, books, txs) ==
            Worth(books.utxos) + RewardOf(books, height)
  {
    hide ValidateTxs, CommitTxs, Worth, MadeAll, SortedById, Fees, Coinbases, Moved, OutputTotal, Named, RewardOf, At,
      Sound;
    BlockCounts(rules, books, height, txs);
    if height == 0 {
      EmptyBlockSupply(rules, books);
    } else {
      var end := ValidateTxs(rules, books, height, Fees(txs), txs, EMPTY_SCRATCH).value;
      var transfers, minted := MadeAll(rules, txs, false, None), Minting(rules, books, txs);
      EmptySound(books, 0);
      PayloadFacts(rules, books, height, Fees(txs), txs, EMPTY_SCRATCH);
      assert map[] + transfers == transfers && {} + Refs(Named(txs)) == Refs(Named(txs));
      assert books.utxos + map[] == books.utxos && books.utxos - {} == books.utxos;
      EmptyIsWorthNothing();
      SoundApart(books, end);
      CommitIsUnion(rules, books, txs);
      TransfersApartFromCoinbase(rules, txs, Some(books.applied));
      MintingIsWorth(rules, books, height, Fees(txs), txs, EMPTY_SCRATCH);
      PoolLeft(books.utxos, transfers, minted, end.spent);
      assert end.newOutputs == transfers;
    }
  }

  lemma SoundApart(books: Books, scratch: Scratch)
    requires Sound(books, scratch)
    ensures scratch.newOutputs.Keys !! books.utxos.Keys
  {
  }

  lemma EmptyBlockSupply(rules: Rules, books: Books)
    ensures Commit(rules, books, EMPTY_SCRATCH, []) == books.(applied := books.applied + 1)
    ensures Lost(rules, books, []) == 0
    ensures RewardOf(books, 0) == 0
  {
    EmptyCommit(rules, books);
    assert At(books.utxos - Refs([]), {}) == map[];
    assert At(map[], Refs([])) == map[];
  }

  // ----- whole histories

  /** The ledger after the genesis. */
  const GENESIS_BOOKS := EMPTY_BOOKS.(applied := 1)

  /** The blocks of a history, applied in order. */
  ghost function Replay(rules: Rules, books: Books, blocks: seq<Payload>): Result<Books, StateError>
    decreases |blocks|
  {
    if blocks == [] then Success(books) else
      var next := Apply(rules, books, blocks[0].height, blocks[0].txs);
      if next.Failure? then next else Replay(rules, next.value, blocks[1..])
  }

  /** The payloads an order applies before it ends or is refused. */
  ghost function Accepted(rules: Rules, books: Books, order: seq<Hash>, fetch: Hash -> Option<Payload>): seq<Payload>
    decreases |order|
  {
    if order == [] || fetch(order[0]).None? then [] else
      var payload := fetch(order[0]).value;
      var next := Apply(rules, books, payload.height, payload.txs);
      if next.Failure? then [] else [payload] + Accepted(rules, next.value, order[1..], fetch)
  }

  /** Whatever an order does, refused or not, its ledger is the replay of an accepted history. */
  lemma {:induction false} OrdersReplay(rules: Rules, books: Books, order: seq<Hash>, fetch: Hash -> Option<Payload>)
    ensures Replay(rules, books, Accepted(rules, books, order, fetch)) ==
            Success(ApplyAll(rules, books, order, fetch).books)
    decreases |order|
  {
    hide Apply;
    if order != [] && fetch(order[0]).Some? {
      var payload := fetch(order[0]).value;
      var next := Apply(rules, books, payload.height, payload.txs);
      if next.Success? {
        OrdersReplay(rules, next.value, order[1..], fetch);
        var rest := Accepted(rules, next.value, order[1..], fetch);
        assert ([payload] + rest)[0] == payload && ([payload] + rest)[1..] == rest;
      }
    }
  }

  /** Every order from an empty ledger leaves it empty or at the end of a history from the genesis. */
  lemma OrdersStartAtGenesis(rules: Rules, order: seq<Hash>, fetch: Hash -> Option<Payload>)
    ensures var end := ApplyOrder(rules, EMPTY_BOOKS, order, fetch).books;
            end == EMPTY_BOOKS || exists blocks :: Replay(rules, GENESIS_BOOKS, blocks) == Success(end)
  {
    hide ApplyAll, Replay;
    if order != [] {
      OrdersReplay(rules, GENESIS_BOOKS, order[1..], fetch);
    }
  }

  ghost function Total(blocks: seq<Payload>): nat {
    if blocks == [] then 0 else OutputTotal(blocks[0].txs) + Total(blocks[1..])
  }

  ghost function Emission(applied: nat): nat {
    if applied == 0 then 0 else Minted(if applied - 1 < LAST_SLOT then applied - 1 else LAST_SLOT)
  }

  /** The counters of a history whose outputs total `made` and whose inputs total `moved`. */
  ghost predicate Balanced(books: Books, made: nat, moved: nat) {
    && books.applied >= 1
    && books.created == SaturatingAdd(0, made) && books.spentValue == SaturatingAdd(0, moved)
    && made == moved + books.emitted
    && (made > 0 ==> books.emitted > 0)
    && books.emitted <= Emission(books.applied)
  }

  lemma EmissionStep(applied: nat)
    requires applied >= 1
    ensures applied <= LAST_SLOT ==> Emission(applied + 1) == Emission(applied) + RewardOfSlot(applied)
    ensures applied > LAST_SLOT ==> Emission(applied + 1) == Emission(applied)
    ensures Emission(applied + 1) <= CAP_ATOMIC
  {
    MintedNeverExceedsCap(if applied < LAST_SLOT then applied else LAST_SLOT);
  }

  lemma BalancedStep(rules: Rules, books: Books, block: Payload, made: nat, moved: nat)
    requires Balanced(books, made, moved) && Apply(rules, books, block.height, block.txs).Success?
    ensures Balanced(Apply(rules, books, block.height, block.txs).value,
                     made + OutputTotal(block.txs), moved + Moved(block.txs))
    ensures Apply(rules, books, block.height, block.txs).value.emitted == books.emitted + RewardOf(books, block.height)
  {
    hide Apply, Emission, OutputTotal, Moved, RewardOfSlot;
    BlockCounts(rules, books, block.height, block.txs);
    EmissionStep(books.applied);
    SaturatingChain(0, made, OutputTotal(block.txs));
    SaturatingChain(0, moved, Moved(block.txs));
    if block.height > 0 {
      RewardIsPositive(books.applied);
    }
  }

  lemma {:induction false} HistoryBalances(rules: Rules, books: Books, blocks: seq<Payload>, made: nat, moved: nat)
    returns (moved': nat)
    requires Balanced(books, made, moved) && Replay(rules, books, blocks).Success?
    ensures Balanced(Replay(rules, books, blocks).value, made + Total(blocks), moved')
    decreases |blocks|
  {
    hide Apply, Balanced, OutputTotal, Moved;
    moved' := moved;
    if blocks != [] {
      BalancedStep(rules, books, blocks[0], made, moved);
      var next := Apply(rules, books, blocks[0].height, blocks[0].txs).value;
      moved' := HistoryBalances(rules, next, blocks[1..], made + OutputTotal(blocks[0].txs),
                                moved + Moved(blocks[0].txs));
    }
  }

  lemma GenesisBalances()
    ensures Balanced(GENESIS_BOOKS, 0, 0)
  {
  }

  /**
   What was created is what was consumed plus what was emitted, on every accepted history, exactly as long
   as the history creates no more than a u64 counts.
   */
  lemma CreatedIsSpentPlusEmitted(rules: Rules, blocks: seq<Payload>)
    requires Replay(rules, GENESIS_BOOKS, blocks).Success?
    ensures var end := Replay(rules, GENESIS_BOOKS, blocks).value;
            end.created == end.spentValue + end.emitted <==> Total(blocks) <= U64_MAX
  {
    hide *;
    GenesisBalances();
    var moved := HistoryBalances(rules, GENESIS_BOOKS, blocks, 0, 0);
    Identity(Replay(rules, GENESIS_BOOKS, blocks).value, 0 + Total(blocks), moved);
  }

  /** Where the node's unchecked addition wraps, it never wraps onto the right value: the check still fails. */
  lemma WrappedSumNeverMatches(rules: Rules, blocks: seq<Payload>)
    requires Replay(rules, GENESIS_BOOKS, blocks).Success?
    ensures var end := Replay(rules, GENESIS_BOOKS, blocks).value;
            end.spentValue + end.emitted > U64_MAX ==> end.created + U64_MAX + 1 != end.spentValue + end.emitted
  {
    hide *;
    GenesisBalances();
    var moved := HistoryBalances(rules, GENESIS_BOOKS, blocks, 0, 0);
    WrappedIdentity(Replay(rules, GENESIS_BOOKS, blocks).value, 0 + Total(blocks), moved);
  }

  lemma WrappedIdentity(books: Books, made: nat, moved: nat)
    requires Balanced(books, made, moved)
    ensures books.spentValue + books.emitted > U64_MAX ==>
            books.created + U64_MAX + 1 != books.spentValue + books.emitted
  {
    hide Minted;
    Capped(books, made, moved);
  }

  lemma Identity(books: Books, made: nat, moved: nat)
    requires Balanced(books, made, moved)
    ensures books.created == books.spentValue + books.emitted <==> made <= U64_MAX
  {
    hide Emission;
  }

  /** The emission never runs ahead of the calendar, nor past the cap. */
  lemma EmissionWithinCap(rules: Rules, blocks: seq<Payload>)
    requires Replay(rules, GENESIS_BOOKS, blocks).Success?
    ensures var end := Replay(rules, GENESIS_BOOKS, blocks).value;
            end.emitted <= Emission(end.applied) <= CAP_ATOMIC
  {
    hide *;
    GenesisBalances();
    var moved := HistoryBalances(rules, GENESIS_BOOKS, blocks, 0, 0);
    Capped(Replay(rules, GENESIS_BOOKS, blocks).value, 0 + Total(blocks), moved);
  }

  lemma Capped(books: Books, made: nat, moved: nat)
    requires Balanced(books, made, moved)
    ensures books.emitted <= Emission(books.applied) <= CAP_ATOMIC
  {
    hide Minted;
    MintedNeverExceedsCap(if books.applied - 1 < LAST_SLOT then books.applied - 1 else LAST_SLOT);
  }

  /** Everything the coinbases of a history waste. */
  ghost function LostOver(rules: Rules, books: Books, blocks: seq<Payload>): nat
    decreases |blocks|
  {
    if blocks == [] || Apply(rules, books, blocks[0].height, blocks[0].txs).Failure? then 0 else
      Lost(rules, books, blocks[0].txs) +
      LostOver(rules, Apply(rules, books, blocks[0].height, blocks[0].txs).value, blocks[1..])
  }

  lemma {:induction false} HistorySupply(
    rules: Rules, books: Books, blocks: seq<Payload>, made: nat, moved: nat, lost: nat)
    requires Balanced(books, made, moved) && Replay(rules, books, blocks).Success?
    requires Worth(books.utxos) + lost == books.emitted
    ensures var end := Replay(rules, books, blocks).value;
            Worth(end.utxos) + lost + LostOver(rules, books, blocks) == end.emitted
    decreases |blocks|
  {
    hide Apply, Balanced, OutputTotal, Moved, Worth, Lost, RewardOf;
    if blocks != [] {
      BalancedStep(rules, books, blocks[0], made, moved);
      BlockSupply(rules, books, blocks[0].height, blocks[0].txs);
      var next := Apply(rules, books, blocks[0].height, blocks[0].txs).value;
      HistorySupply(rules, next, blocks[1..], made + OutputTotal(blocks[0].txs), moved + Moved(blocks[0].txs),
                    lost + Lost(rules, books, blocks[0].txs));
    }
  }

  lemma GenesisIsEmpty()
    ensures GENESIS_BOOKS.utxos == map[] && GENESIS_BOOKS.emitted == 0
  {
  }

  /**
   A reference the coinbase of a block wastes: an unspent output of some amount it overwrites and the block does not
   consume, or one of its own outputs of some amount that the block names.
   */
  ghost predicate Wasted(rules: Rules, books: Books, txs: seq<Transaction>, r: OutputRef) {
    var minted, named := Minting(rules, books, txs), Refs(Named(txs));
    && r in minted
    && if r in named then minted[r].amount > 0 else r in books.utxos && books.utxos[r].amount > 0
  }

  /** No block of a history wastes a reference. */
  ghost predicate NothingWasted(rules: Rules, books: Books, blocks: seq<Payload>)
    decreases |blocks|
  {
    blocks == [] || Apply(rules, books, blocks[0].height, blocks[0].txs).Failure? || (
      && (forall r :: !Wasted(rules, books, blocks[0].txs, r))
      && NothingWasted(rules, Apply(rules, books, blocks[0].height, blocks[0].txs).value, blocks[1..]))
  }

  /** A pool is worth nothing exactly when every output in it is. */
  lemma {:induction false} WorthlessPool(pool: Pool)
    ensures Worth(pool) == 0 <==> forall r | r in pool :: pool[r].amount == 0
    decreases |pool.Keys|
  {
    if pool.Keys != {} {
      var k :| k in pool.Keys;
      WorthSplit(pool, k);
      WorthlessPool(pool - {k});
      assert forall r | r in pool && r != k :: r in pool - {k} && (pool - {k})[r] == pool[r];
    }
  }

  /** A coinbase loses value exactly when it wastes a reference. */
  lemma LossIsWaste(rules: Rules, books: Books, txs: seq<Transaction>)
    ensures Lost(rules, books, txs) == 0 <==> forall r :: !Wasted(rules, books, txs, r)
  {
    hide Worth, MadeAll, Named;
    var minted, named := Minting(rules, books, txs), Refs(Named(txs));
    var overwritten, dropped := At(books.utxos - named, minted.Keys), At(minted, named);
    WorthlessPool(overwritten);
    WorthlessPool(dropped);
    assert forall r :: r in overwritten <==> r in minted && r !in named && r in books.utxos;
    assert forall r :: r in dropped <==> r in minted && r in named;
    assert forall r | r in overwritten :: overwritten[r] == books.utxos[r];
    assert forall r | r in dropped :: dropped[r] == minted[r];
    forall r
      ensures Wasted(rules, books, txs, r) <==>
              (r in overwritten && overwritten[r].amount > 0) || (r in dropped && dropped[r].amount > 0)
    {
    }
  }

  lemma {:induction false} LossesAreWaste(rules: Rules, books: Books, blocks: seq<Payload>)
    ensures LostOver(rules, books, blocks) == 0 <==> NothingWasted(rules, books, blocks)
    decreases |blocks|
  {
    hide Apply, Lost, Wasted;
    if blocks != [] && Apply(rules, books, blocks[0].height, blocks[0].txs).Success? {
      LossIsWaste(rules, books, blocks[0].txs);
      LossesAreWaste(rules, Apply(rules, books, blocks[0].height, blocks[0].txs).value, blocks[1..]);
    }
  }

  /**
   The supply: the unspent outputs of a history never exceed its emission, and they equal it exactly when no
   coinbase of the history wastes a reference.
   */
  lemma UnspentIsEmitted(rules: Rules, blocks: seq<Payload>)
    requires Replay(rules, GENESIS_BOOKS, blocks).Success?
    ensures var end := Replay(rules, GENESIS_BOOKS, blocks).value;
            && Worth(end.utxos) <= end.emitted
            && (Worth(end.utxos) == end.emitted <==> NothingWasted(rules, GENESIS_BOOKS, blocks))
  {
    hide *;
    GenesisBalances();
    EmptyIsWorthNothing();
    GenesisIsEmpty();
    HistorySupply(rules, GENESIS_BOOKS, blocks, 0, 0, 0);
    LossesAreWaste(rules, GENESIS_BOOKS, blocks);
  }

  // ----- fresh coinbases

  /** No output of the coinbase is known to the ledger, unspent or spent. */
  ghost predicate CoinbaseIsUnknown(rules: Rules, books: Books, txs: seq<Transaction>) {
    Minting(rules, books, txs).Keys !! books.utxos.Keys && Minting(rules, books, txs).Keys !! books.spent
  }

  ghost predicate FreshCoinbases(rules: Rules, books: Books, blocks: seq<Payload>)
    decreases |blocks|
  {
    blocks == [] || Apply(rules, books, blocks[0].height, blocks[0].txs).Failure? || (
      && CoinbaseIsUnknown(rules, books, blocks[0].txs)
      && FreshCoinbases(rules, Apply(rules, books, blocks[0].height, blocks[0].txs).value, blocks[1..]))
  }

  /** A new coinbase wastes nothing. */
  lemma NewCoinbaseLosesNothing(rules: Rules, books: Books, height: nat, txs: seq<Transaction>)
    requires Apply(rules, books, height, txs).Success? && CoinbaseIsNew(rules, books, txs)
    ensures Lost(rules, books, txs) == 0
  {
    hide Apply, Worth, MadeAll, Named;
    AcceptedNamesOldOutputs(rules, books, height, txs);
    var minted, named := Minting(rules, books, txs), Refs(Named(txs));
    assert At(books.utxos - named, minted.Keys) == map[];
    assert At(minted, named) == map[] by {
      assert forall r | r in named && r in minted :: r in OwnCoinbaseNamed(rules, books, txs);
    }
    EmptyIsWorthNothing();
  }

  lemma {:induction false} FreshHistoryLosesNothing(rules: Rules, books: Books, blocks: seq<Payload>)
    requires FreshCoinbases(rules, books, blocks)
    ensures LostOver(rules, books, blocks) == 0
    decreases |blocks|
  {
    hide Apply, Lost, MadeAll;
    if blocks != [] && Apply(rules, books, blocks[0].height, blocks[0].txs).Success? {
      NewCoinbaseLosesNothing(rules, books, blocks[0].height, blocks[0].txs);
      FreshHistoryLosesNothing(rules, Apply(rules, books, blocks[0].height, blocks[0].txs).value, blocks[1..]);
    }
  }

  /** With fresh coinbases the unspent outputs are worth exactly the emission. */
  lemma FreshSupply(rules: Rules, blocks: seq<Payload>)
    requires Replay(rules, GENESIS_BOOKS, blocks).Success? && FreshCoinbases(rules, GENESIS_BOOKS, blocks)
    ensures Worth(Replay(rules, GENESIS_BOOKS, blocks).value.utxos) ==
            Replay(rules, GENESIS_BOOKS, blocks).value.emitted
  {
    hide *;
    FreshHistoryLosesNothing(rules, GENESIS_BOOKS, blocks);
    LossesAreWaste(rules, GENESIS_BOOKS, blocks);
    UnspentIsEmitted(rules, blocks);
  }

  // ----- spent once

  ghost predicate Disjoint(books: Books) {
    books.utxos.Keys !! books.spent
  }

  /** What an accepted block does to the references. */
  lemma BlockReferences(rules: Rules, books: Books, height: nat, txs: seq<Transaction>)
    requires Apply(rules, books, height, txs).Success?
    ensures var after := Apply(rules, books, height, txs).value;
            && after.spent == books.spent + Refs(Named(txs))
            && NoRepeats(Named(txs))
            && (Disjoint(books) ==>
                  && Refs(Named(txs)) !! books.spent
                  && (Disjoint(after) <==> Minting(rules, books, txs).Keys !! books.spent))
  {
    hide ValidateTxs, CommitTxs, Worth, MadeAll, SortedById, Fees, Coinbases, Moved, Named;
    if height == 0 {
      NothingMoves();
      EmptyCommit(rules, books);
      NothingMinted(rules, books);
      assert books.spent + Refs([]) == books.spent;
    } else {
      EmptySound(books, 0);
      PayloadFacts(rules, books, height, Fees(txs), txs, EMPTY_SCRATCH);
      CommitIsUnion(rules, books, txs);
      assert map[] + MadeAll(rules, txs, false, None) == MadeAll(rules, txs, false, None);
      assert {} + Refs(Named(txs)) == Refs(Named(txs));
      if Disjoint(books) {
        References(books, MadeAll(rules, txs, false, None), Minting(rules, books, txs), Refs(Named(txs)),
                   Apply(rules, books, height, txs).value);
      }
    }
  }

  lemma NothingMinted(rules: Rules, books: Books)
    ensures Minting(rules, books, []).Keys == {} && Refs(Named([])) == {} && NoRepeats(Named([]))
  {
  }

  lemma References(books: Books, transfers: Pool, minted: Pool, named: set<OutputRef>, after: Books)
    requires Disjoint(books) && transfers.Keys !! books.spent && named <= (books.utxos + transfers).Keys
    requires after.utxos == (books.utxos + (transfers + minted)) - named && after.spent == books.spent + named
    ensures named !! books.spent
    ensures Disjoint(after) <==> minted.Keys !! books.spent
  {
    if r :| r in minted && r in books.spent {
      assert r in after.utxos && r in after.spent;
    }
  }

  /** The references a history consumes, in order. */
  ghost function NamedOver(blocks: seq<Payload>): seq<OutputRef> {
    if blocks == [] then [] else Named(blocks[0].txs) + NamedOver(blocks[1..])
  }

  lemma {:induction false} HistoryReferences(rules: Rules, books: Books, blocks: seq<Payload>)
    requires Disjoint(books) && Replay(rules, books, blocks).Success? && FreshCoinbases(rules, books, blocks)
    ensures var end := Replay(rules, books, blocks).value;
            && Disjoint(end) && end.spent == books.spent + Refs(NamedOver(blocks))
            && NoRepeats(NamedOver(blocks)) && Refs(NamedOver(blocks)) !! books.spent
    decreases |blocks|
  {
    hide Apply, Named, Disjoint, MadeAll, NoRepeats;
    if blocks == [] {
      NothingMinted(rules, books);
      NothingMoves();
      assert books.spent + Refs([]) == books.spent;
    } else {
      var block := blocks[0];
      BlockReferences(rules, books, block.height, block.txs);
      var next := Apply(rules, books, block.height, block.txs).value;
      HistoryReferences(rules, next, blocks[1..]);
      RefsAppend(Named(block.txs), NamedOver(blocks[1..]));
      NoRepeatsAppend(Named(block.txs), NamedOver(blocks[1..]));
    }
  }

  /**
   With fresh coinbases no output is consumed twice over a whole history, what is consumed is what is spent,
   and nothing is both spent and unspent.
   */
  lemma NothingIsSpentTwice(rules: Rules, blocks: seq<Payload>)
    requires Replay(rules, GENESIS_BOOKS, blocks).Success? && FreshCoinbases(rules, GENESIS_BOOKS, blocks)
    ensures var end := Replay(rules, GENESIS_BOOKS, blocks).value;
            Disjoint(end) && NoRepeats(NamedOver(blocks)) && end.spent == Refs(NamedOver(blocks))
  {
    hide Replay, FreshCoinbases, NamedOver;
    HistoryReferences(rules, GENESIS_BOOKS, blocks);
    assert {} + Refs(NamedOver(blocks)) == Refs(NamedOver(blocks));
  }

  // ----- the independent recomputation

  /** When every block after the genesis has a height, the emission is the sum of the rewards of its slots. */
  lemma {:induction false} HistoryMints(rules: Rules, books: Books, blocks: seq<Payload>, made: nat, moved: nat)
    requires Balanced(books, made, moved) && Replay(rules, books, blocks).Success?
    requires books.applied - 1 <= LAST_SLOT && books.emitted == Minted(books.applied - 1)
    requires forall block | block in blocks :: block.height > 0
    ensures var end := Replay(rules, books, blocks).value;
            1 <= end.applied <= LAST_SLOT + 1 && end.emitted == Minted(end.applied - 1)
    decreases |blocks|
  {
    hide Apply, OutputTotal, Moved, RewardOfSlot;
    if blocks != [] {
      assert blocks[0] in blocks;
      BlockCounts(rules, books, blocks[0].height, blocks[0].txs);
      BalancedStep(rules, books, blocks[0], made, moved);
      var next := Apply(rules, books, blocks[0].height, blocks[0].txs).value;
      HistoryMints(rules, next, blocks[1..], made + OutputTotal(blocks[0].txs), moved + Moved(blocks[0].txs));
    }
  }
}
