/**
 The independent ledger of the vector generator: the same rules over unbounded integers. It agrees with the
 node's ledger wherever the latter stays inside its machine words, as long as no block after the genesis has
 height zero: to such a block it gives no slot.
 */
module Mirrors {
  import opened Wrappers
  import opened Words
  import opened Ranking
  import opened Calendar
  import opened Transactions
  import opened Ledgers

  /** The mirror's books: the counters are unbounded. */
  datatype Account = Account(
    utxos: map<OutputRef, Entry>, spent: set<OutputRef>, applied: nat, created: nat, spentValue: nat, emitted: nat)

  datatype Taken = Taken(spent: set<OutputRef>, value: nat)

  datatype Draft = Draft(newOutputs: map<OutputRef, Entry>, spent: set<OutputRef>, spentValue: nat)

  const EMPTY_ACCOUNT := Account(map[], {}, 0, 0, 0, 0)
  const EMPTY_DRAFT := Draft(map[], {}, 0)

  // ----- the rules, unbounded

  function MirrorCoinbase(rules: Rules, slot: nat, height: nat, fees: nat, tx: Transaction): Option<StateError> {
    if tx.inputs != [] then Some(CoinbaseInputs(|tx.inputs|))
    else if tx.fee != 0 then Some(CoinbaseFee)
    else if |tx.extra| != 8 then Some(CoinbaseExtra(|tx.extra|))
    else if LittleEndian(tx.extra) != height then Some(CoinbaseHeight(LittleEndian(tx.extra), height))
    else if slot > LAST_SLOT then Some(Panicked)
    else
      var (count, share, total) := ExpectedCoinbase(slot, fees);
      if |tx.outputs| != count then Some(CoinbaseOutputs(count, |tx.outputs|))
      else if Sum(tx.outputs) != total then Some(CoinbaseValue(total, Sum(tx.outputs)))
      else if count == 2 && tx.outputs[1].address != rules.treasury then Some(CoinbaseTreasuryAddress)
      else if count == 2 && tx.outputs[1].amount != share then Some(CoinbaseTreasuryShare(share, tx.outputs[1].amount))
      else None
  }

  function MirrorInput(account: Account, made: map<OutputRef, Entry>, input: TxIn, so: Taken)
    : Result<Taken, StateError>
  {
    var r := input.output;
    if r !in account.utxos && r !in made then
      Failure(if r in account.spent || r in so.spent then DoubleSpend(r) else UnknownOutput(r))
    else if r in so.spent then Failure(DoubleSpend(r))
    else
      var entry := if r in account.utxos then account.utxos[r] else made[r];
      if entry.address.spend != input.key then Failure(KeyNotBound(r))
      else if entry.coinbaseSlot.Some? && account.applied < entry.coinbaseSlot.value + MATURITY then
        Failure(ImmatureCoinbase(r, entry.coinbaseSlot.value, account.applied))
      else Success(Taken(so.spent + {r}, so.value + entry.amount))
  }

  function MirrorInputs(account: Account, made: map<OutputRef, Entry>, inputs: seq<TxIn>, so: Taken)
    : Result<Taken, StateError>
    decreases |inputs|
  {
    if inputs == [] then Success(so) else
      var next := MirrorInput(account, made, inputs[0], so);
      if next.Failure? then next else MirrorInputs(account, made, inputs[1..], next.value)
  }

  function MirrorOutputs(account: Account, id: Hash, index: nat, outputs: seq<TxOut>, made: map<OutputRef, Entry>)
    : Result<map<OutputRef, Entry>, StateError>
    decreases |outputs|
  {
    if outputs == [] then Success(made) else
      var r := OutputRef(id, index);
      if r in account.utxos || r in made || r in account.spent then Failure(OutputCollision(r))
      else
        var entry := Entry(outputs[0].address, outputs[0].amount, None);
        MirrorOutputs(account, id, index + 1, outputs[1..], made[r := entry])
  }

  function MirrorTransfer(rules: Rules, account: Account, tx: Transaction, draft: Draft): Result<Draft, StateError> {
    if tx.inputs == [] then Failure(NoInputs) else
      var taken := MirrorInputs(account, draft.newOutputs, tx.inputs, Taken(draft.spent, 0));
      if taken.Failure? then Failure(taken.error)
      else if taken.value.value != tx.fee + Sum(tx.outputs) then
        Failure(Conservation(taken.value.value, tx.fee + Sum(tx.outputs)))
      else
        var made := MirrorOutputs(account, rules.txId(tx), 0, tx.outputs, draft.newOutputs);
        if made.Failure? then Failure(made.error)
        else Success(Draft(made.value, taken.value.spent, draft.spentValue + taken.value.value))
  }

  function MirrorTxs(rules: Rules, account: Account, height: nat, fees: nat, txs: seq<Transaction>, draft: Draft)
    : Result<Draft, StateError>
    decreases |txs|
  {
    if txs == [] then Success(draft)
    else if txs[0].txType.Coinbase? then
      var refusal := MirrorCoinbase(rules, account.applied, height, fees, txs[0]);
      if refusal.Some? then Failure(refusal.value) else MirrorTxs(rules, account, height, fees, txs[1..], draft)
    else
      var next := MirrorTransfer(rules, account, txs[0], draft);
      if next.Failure? then next else MirrorTxs(rules, account, height, fees, txs[1..], next.value)
  }

  function MirrorCommitTx(rules: Rules, account: Account, tx: Transaction): Account {
    var slot := if tx.txType.Coinbase? then Some(account.applied) else None;
    var reward := if tx.txType.Coinbase? && account.applied <= LAST_SLOT then RewardOfSlot(account.applied) else 0;
    account.(utxos := Created(account.utxos, rules.txId(tx), 0, tx.outputs, slot),
             created := account.created + Sum(tx.outputs), emitted := account.emitted + reward)
  }

  function MirrorCommit(rules: Rules, account: Account, txs: seq<Transaction>): (r: Account)
    ensures r.applied == account.applied && r.spent == account.spent && r.spentValue == account.spentValue
    decreases |txs|
  {
    if txs == [] then account else MirrorCommit(rules, MirrorCommitTx(rules, account, txs[0]), txs[1..])
  }

  /** What the mirror does with one block: an empty block of height zero changes nothing, not even the slot. */
  function MirrorApply(rules: Rules, account: Account, height: nat, txs: seq<Transaction>)
    : Result<Account, StateError>
  {
    if !SortedById(rules, txs) then Failure(UnsortedPayload)
    else if height == 0 then if txs == [] then Success(account) else Failure(GenesisPayload(|txs|))
    else if Coinbases(txs) != 1 then Failure(CoinbaseCount(Coinbases(txs)))
    else
      var draft := MirrorTxs(rules, account, height, Fees(txs), txs, EMPTY_DRAFT);
      if draft.Failure? then Failure(draft.error)
      else
        var made := MirrorCommit(rules, account, txs);
        Success(Account(made.utxos - draft.value.spent, made.spent + draft.value.spent, made.applied + 1,
                        made.created, made.spentValue + draft.value.spentValue, made.emitted))
  }

  datatype MirrorOutcome = MirrorOutcome(account: Account, refusal: Option<StateError>)

  function MirrorAll(rules: Rules, account: Account, order: seq<Hash>, fetch: Hash -> Option<Payload>): MirrorOutcome
    decreases |order|
  {
    if order == [] then MirrorOutcome(account, None)
    else if fetch(order[0]).None? then MirrorOutcome(account, Some(MissingPayload(order[0])))
    else
      var payload := fetch(order[0]).value;
      var next := MirrorApply(rules, account, payload.height, payload.txs);
      if next.Failure? then MirrorOutcome(account, Some(next.error))
      else MirrorAll(rules, next.value, order[1..], fetch)
  }

  /** The genesis first, then every block. */
  function MirrorOrder(rules: Rules, account: Account, order: seq<Hash>, fetch: Hash -> Option<Payload>)
    : MirrorOutcome
  {
    if order == [] then MirrorOutcome(account, None)
    else if fetch(order[0]).None? then MirrorOutcome(account, Some(MissingPayload(order[0])))
    else
      var payload := fetch(order[0]).value;
      if payload.height != 0 then MirrorOutcome(account, Some(NotGenesis(payload.height)))
      else if payload.txs != [] then MirrorOutcome(account, Some(GenesisPayload(|payload.txs|)))
      else MirrorAll(rules, account.(applied := 1), order[1..], fetch)
  }

  // ----- agreement on one block

  /** The two ledgers hold the same outputs at the same slot. */
  ghost predicate SameOutputs(books: Books, account: Account) {
    books.utxos == account.utxos && books.spent == account.spent && books.applied == account.applied
  }

  /** The counters agree too, as far as a u64 shows them. */
  ghost predicate Mirrored(books: Books, account: Account) {
    && SameOutputs(books, account)
    && books.created == SaturatingAdd(0, account.created)
    && books.spentValue == SaturatingAdd(0, account.spentValue)
    && books.emitted == SaturatingAdd(0, account.emitted)
  }

  /** Verdicts the mirror cannot give: the node left its machine words. */
  predicate OutOfRange(e: StateError) {
    e == Overflow || e == Panicked
  }

  lemma {:induction false} InputsMirror(
    books: Books, account: Account, made: map<OutputRef, Entry>, inputs: seq<TxIn>, so: Consumed)
    requires SameOutputs(books, account)
    ensures var one := Consume(books, made, books.applied, inputs, so);
            var other := MirrorInputs(account, made, inputs, Taken(so.spent, so.value));
            && (one.Success? ==> other == Success(Taken(one.value.spent, one.value.value)))
            && (one.Failure? && one.error != Overflow ==> other == Failure(one.error))
    decreases |inputs|
  {
    if inputs != [] {
      var next := ConsumeOne(books, made, books.applied, inputs[0], so);
      if next.Success? {
        InputsMirror(books, account, made, inputs[1..], next.value);
      }
    }
  }

  lemma {:induction false} OutputsMirror(
    books: Books, account: Account, id: Hash, index: nat, outputs: seq<TxOut>, made: map<OutputRef, Entry>)
    requires SameOutputs(books, account)
    ensures MirrorOutputs(account, id, index, outputs, made) == Register(books, id, index, outputs, made)
    decreases |outputs|
  {
    if outputs != [] {
      var e := Entry(outputs[0].address, outputs[0].amount, None);
      OutputsMirror(books, account, id, index + 1, outputs[1..], made[OutputRef(id, index) := e]);
    }
  }

  ghost function Drafted(scratch: Scratch): Draft {
    Draft(scratch.newOutputs, scratch.spent, scratch.spentValue)
  }

  lemma TransferMirrors(rules: Rules, books: Books, account: Account, tx: Transaction, scratch: Scratch)
    requires SameOutputs(books, account)
    ensures var one := ValidateTransfer(rules, books, books.applied, tx, scratch);
            var other := MirrorTransfer(rules, account, tx, Drafted(scratch));
            && (one.Success? ==> other == Success(Drafted(one.value)))
            && (one.Failure? && one.error != Overflow ==> other == Failure(one.error))
  {
    hide Consume, MirrorInputs, Register, MirrorOutputs, Sum;
    InputsMirror(books, account, scratch.newOutputs, tx.inputs, Consumed(scratch.spent, 0));
    OutputsMirror(books, account, rules.txId(tx), 0, tx.outputs, scratch.newOutputs);
  }

  lemma CoinbaseMirrors(rules: Rules, slot: nat, height: nat, fees: nat, tx: Transaction)
    ensures var one := CoinbaseRefusal(rules, slot, height, fees, tx);
            var other := MirrorCoinbase(rules, slot, height, fees, tx);
            (one.Some? && OutOfRange(one.value)) || one == other
  {
  }

  lemma {:induction false} PayloadMirrors(
    rules: Rules, books: Books, account: Account, height: nat, fees: nat, txs: seq<Transaction>, scratch: Scratch)
    requires SameOutputs(books, account)
    ensures var one := ValidateTxs(rules, books, height, fees, txs, scratch);
            var other := MirrorTxs(rules, account, height, fees, txs, Drafted(scratch));
            && (one.Success? ==> other == Success(Drafted(one.value)))
            && (one.Failure? && !OutOfRange(one.error) ==> other == Failure(one.error))
    decreases |txs|
  {
    hide CoinbaseRefusal, MirrorCoinbase, ValidateTransfer, MirrorTransfer, Drafted;
    if txs != [] {
      CoinbaseMirrors(rules, books.applied, height, fees, txs[0]);
      TransferMirrors(rules, books, account, txs[0], scratch);
      var next := ValidateTx(rules, books, height, fees, txs[0], scratch);
      if next.Success? {
        PayloadMirrors(rules, books, account, height, fees, txs[1..], next.value);
      }
    }
  }

  lemma {:induction false} CommitMirrors(rules: Rules, books: Books, account: Account, txs: seq<Transaction>)
    requires Mirrored(books, account)
    ensures Mirrored(CommitTxs(rules, books, txs), MirrorCommit(rules, account, txs))
    decreases |txs|
  {
    hide Created, Sum, RewardOfSlot;
    if txs != [] {
      var tx := txs[0];
      var next := MirrorCommitTx(rules, account, tx);
      SaturatingChain(0, account.created, Sum(tx.outputs));
      SaturatingChain(0, account.emitted, next.emitted - account.emitted);
      CommitMirrors(rules, CommitTx(rules, books, tx), next, txs[1..]);
    }
  }

  /**
   Two implementations, one ledger: on a block with a height, unless the node reports that it left its machine
   words, both give the same verdict, and after an accepted block their books agree.
   */
  lemma BlocksMirror(rules: Rules, books: Books, account: Account, height: nat, txs: seq<Transaction>)
    requires Mirrored(books, account) && height > 0
    ensures var one, other := Apply(rules, books, height, txs), MirrorApply(rules, account, height, txs);
            && (one.Success? ==> other.Success? && Mirrored(one.value, other.value))
            && (one.Failure? && !OutOfRange(one.error) ==> other == Failure(one.error))
  {
    hide ValidateTxs, MirrorTxs, CommitTxs, MirrorCommit, SortedById, Coinbases, Fees;
    PayloadMirrors(rules, books, account, height, Fees(txs), txs, EMPTY_SCRATCH);
    CommitMirrors(rules, books, account, txs);
    var scratch := ValidateBlock(rules, books, height, txs);
    if scratch.Success? {
      SaturatingChain(0, account.spentValue, scratch.value.spentValue);
    }
  }

  // ----- agreement on whole orders

  ghost predicate AllHaveHeight(order: seq<Hash>, fetch: Hash -> Option<Payload>) {
    forall i | 0 <= i < |order| && fetch(order[i]).Some? :: fetch(order[i]).value.height > 0
  }

  /** Over a whole order of blocks with heights the two ledgers stop at the same place for the same reason. */
  lemma {:induction false} OrdersMirror(
    rules: Rules, books: Books, account: Account, order: seq<Hash>, fetch: Hash -> Option<Payload>)
    requires Mirrored(books, account) && AllHaveHeight(order, fetch)
    ensures var one, other := ApplyAll(rules, books, order, fetch), MirrorAll(rules, account, order, fetch);
            (one.refusal.Some? && OutOfRange(one.refusal.value))
            || (one.refusal == other.refusal && Mirrored(one.books, other.account))
    decreases |order|
  {
    hide Apply, MirrorApply, Mirrored;
    if order != [] && fetch(order[0]).Some? {
      var payload := fetch(order[0]).value;
      BlocksMirror(rules, books, account, payload.height, payload.txs);
      var next := Apply(rules, books, payload.height, payload.txs);
      if next.Success? {
        forall i | 0 <= i < |order[1..]| && fetch(order[1..][i]).Some? ensures fetch(order[1..][i]).value.height > 0 {
          assert order[1..][i] == order[i + 1];
        }
        var seen := MirrorApply(rules, account, payload.height, payload.txs).value;
        OrdersMirror(rules, next.value, seen, order[1..], fetch);
      }
    }
  }

  /** From the genesis on: when only the genesis has height zero, the two ledgers agree on the whole history. */
  lemma HistoriesMirror(rules: Rules, order: seq<Hash>, fetch: Hash -> Option<Payload>)
    requires order != [] ==> AllHaveHeight(order[1..], fetch)
    ensures var one := ApplyOrder(rules, EMPTY_BOOKS, order, fetch);
            var other := MirrorOrder(rules, EMPTY_ACCOUNT, order, fetch);
            (one.refusal.Some? && OutOfRange(one.refusal.value))
            || (one.refusal == other.refusal && Mirrored(one.books, other.account))
  {
    hide ApplyAll, MirrorAll;
    if order != [] {
      OrdersMirror(rules, EMPTY_BOOKS.(applied := 1), EMPTY_ACCOUNT.(applied := 1), order[1..], fetch);
    }
  }

  /** The blocks of an order that have a height. */
  ghost function Heighted(order: seq<Hash>, fetch: Hash -> Option<Payload>): nat {
    if order == [] then 0 else
      (if fetch(order[0]).Some? && fetch(order[0]).value.height > 0 then 1 else 0) + Heighted(order[1..], fetch)
  }

  lemma {:induction false} HeightedBounds(order: seq<Hash>, fetch: Hash -> Option<Payload>)
    ensures Heighted(order, fetch) <= |order|
    ensures Heighted(order, fetch) == |order| ==> AllHaveHeight(order, fetch)
  {
    if order != [] {
      HeightedBounds(order[1..], fetch);
      if Heighted(order, fetch) == |order| {
        forall i | 0 <= i < |order| && fetch(order[i]).Some? ensures fetch(order[i]).value.height > 0 {
          if i > 0 {
            assert order[i] == order[1..][i - 1];
          }
        }
      }
    }
  }

  /** The mirror gives slots to blocks with a height alone. */
  lemma {:induction false} MirrorSlots(rules: Rules, account: Account, order: seq<Hash>, fetch: Hash -> Option<Payload>)
    ensures MirrorAll(rules, account, order, fetch).account.applied <= account.applied + Heighted(order, fetch)
    decreases |order|
  {
    hide MirrorTxs, MirrorCommit, SortedById;
    if order != [] && fetch(order[0]).Some? {
      var payload := fetch(order[0]).value;
      var next := MirrorApply(rules, account, payload.height, payload.txs);
      if next.Success? {
        MirrorSlots(rules, next.value, order[1..], fetch);
      }
    }
  }

  /**
   On every history the node accepts whole, the two books agree at the end exactly when no block after the genesis
   has height zero: such a block takes a slot in the node and none in the mirror, and no later block makes up for it.
   */
  lemma HistoriesMirrorExactly(rules: Rules, order: seq<Hash>, fetch: Hash -> Option<Payload>)
    requires ApplyOrder(rules, EMPTY_BOOKS, order, fetch).refusal.None?
    ensures var one := ApplyOrder(rules, EMPTY_BOOKS, order, fetch).books;
            var other := MirrorOrder(rules, EMPTY_ACCOUNT, order, fetch).account;
            Mirrored(one, other) <==> order == [] || AllHaveHeight(order[1..], fetch)
  {
    hide ApplyAll, MirrorAll, AllHaveHeight;
    if order == [] || AllHaveHeight(order[1..], fetch) {
      HistoriesMirror(rules, order, fetch);
    } else {
      FoldCountsSlots(rules, EMPTY_BOOKS.(applied := 1), order[1..], fetch);
      MirrorSlots(rules, EMPTY_ACCOUNT.(applied := 1), order[1..], fetch);
      HeightedBounds(order[1..], fetch);
    }
  }

  /** The shortest such history: the genesis and one empty block of height zero. Both accept it, a slot apart. */
  lemma EmptyBlocksDiffer(rules: Rules, genesis: Hash, id: Hash, fetch: Hash -> Option<Payload>)
    requires fetch(genesis) == Some(Payload(0, [])) && fetch(id) == Some(Payload(0, []))
    ensures var one := ApplyOrder(rules, EMPTY_BOOKS, [genesis, id], fetch);
            var other := MirrorOrder(rules, EMPTY_ACCOUNT, [genesis, id], fetch);
            && one.refusal.None? && other.refusal.None? && one.books.applied == 2 && other.account.applied == 1
            && !Mirrored(one.books, other.account)
  {
    var books, account := EMPTY_BOOKS.(applied := 1), EMPTY_ACCOUNT.(applied := 1);
    EmptyBlockSlot(rules, books, account);
    hide Apply, MirrorApply;
    assert [genesis, id][1..] == [id] && [id][1..] == [];
    var next := Apply(rules, books, 0, []).value;
    assert ApplyAll(rules, next, [], fetch).books == next;
    assert ApplyAll(rules, books, [id], fetch) == ApplyAll(rules, next, [], fetch);
    assert MirrorAll(rules, account, [id], fetch) == MirrorAll(rules, account, [], fetch);
  }

  lemma EmptyBlockSlot(rules: Rules, books: Books, account: Account)
    ensures Apply(rules, books, 0, []).Success? && Apply(rules, books, 0, []).value.applied == books.applied + 1
    ensures MirrorApply(rules, account, 0, []) == Success(account)
  {
  }

  // ----- the mirror itself

  class MirrorLedger {
    var utxos: map<OutputRef, Entry>
    var spent: set<OutputRef>
    var applied: nat
    var created: nat
    var spentValue: nat
    var emitted: nat

    function Value(): Account
      reads this
    {
      Account(utxos, spent, applied, created, spentValue, emitted)
    }

    constructor ()
      ensures Value() == EMPTY_ACCOUNT
    {
      utxos, spent, applied := map[], {}, 0;
      created, spentValue, emitted := 0, 0, 0;
    }

    method ValidateTransfer(rules: Rules, tx: Transaction, draft: Draft) returns (r: Result<Draft, StateError>)
      ensures r == MirrorTransfer(rules, Value(), tx, draft)
    {
      hide MirrorInput, Sum;
      if tx.inputs == [] {
        return Failure(NoInputs);
      }
      var taken := TakeInputs(tx.inputs, draft);
      if taken.Failure? {
        return Failure(taken.error);
      }
      var outputValue := tx.fee + Sum(tx.outputs);
      if taken.value.value != outputValue {
        return Failure(Conservation(taken.value.value, outputValue));
      }
      var made := draft.newOutputs;
      for i := 0 to |tx.outputs|
        invariant MirrorOutputs(Value(), rules.txId(tx), i, tx.outputs[i..], made) ==
                  MirrorOutputs(Value(), rules.txId(tx), 0, tx.outputs, draft.newOutputs)
      {
        Tail(tx.outputs, i);
        var reference := OutputRef(rules.txId(tx), i);
        if reference in utxos || reference in made || reference in spent {
          return Failure(OutputCollision(reference));
        }
        made := made[reference := Entry(tx.outputs[i].address, tx.outputs[i].amount, None)];
      }
      r := Success(Draft(made, taken.value.spent, draft.spentValue + taken.value.value));
    }

    method TakeInputs(inputs: seq<TxIn>, draft: Draft) returns (r: Result<Taken, StateError>)
      ensures r == MirrorInputs(Value(), draft.newOutputs, inputs, Taken(draft.spent, 0))
    {
      hide MirrorInput;
      var so := Taken(draft.spent, 0);
      for i := 0 to |inputs|
        invariant MirrorInputs(Value(), draft.newOutputs, inputs[i..], so) ==
                  MirrorInputs(Value(), draft.newOutputs, inputs, Taken(draft.spent, 0))
      {
        Tail(inputs, i);
        var next := MirrorInput(Value(), draft.newOutputs, inputs[i], so);
        if next.Failure? {
          return next;
        }
        so := next.value;
      }
      r := Success(so);
    }

    /** The pure phase of a block with a height. */
    method ValidateTxs(rules: Rules, height: nat, fees: nat, txs: seq<Transaction>)
      returns (r: Result<Draft, StateError>)
      ensures r == MirrorTxs(rules, Value(), height, fees, txs, EMPTY_DRAFT)
    {
      hide MirrorCoinbase, MirrorTransfer;
      var draft := EMPTY_DRAFT;
      for i := 0 to |txs|
        invariant MirrorTxs(rules, Value(), height, fees, txs[i..], draft) ==
                  MirrorTxs(rules, Value(), height, fees, txs, EMPTY_DRAFT)
      {
        Tail(txs, i);
        if txs[i].txType.Coinbase? {
          var refusal := MirrorCoinbase(rules, applied, height, fees, txs[i]);
          if refusal.Some? {
            return Failure(refusal.value);
          }
        } else {
          var next := ValidateTransfer(rules, txs[i], draft);
          if next.Failure? {
            return next;
          }
          draft := next.value;
        }
      }
      r := Success(draft);
    }

    /** The commit phase. */
    method Commit(rules: Rules, draft: Draft, txs: seq<Transaction>)
      requires Coinbases(txs) > 0 ==> applied <= LAST_SLOT
      modifies this
      ensures var made := MirrorCommit(rules, old(Value()), txs);
              Value() == Account(made.utxos - draft.spent, made.spent + draft.spent, made.applied + 1,
                                 made.created, made.spentValue + draft.spentValue, made.emitted)
    {
      hide Created, Sum;
      for i := 0 to |txs|
        invariant applied == old(applied) && (Coinbases(txs[i..]) > 0 ==> applied <= LAST_SLOT)
        invariant MirrorCommit(rules, Value(), txs[i..]) == MirrorCommit(rules, old(Value()), txs)
      {
        Tail(txs, i);
        var coinbase := txs[i].txType.Coinbase?;
        Create(rules.txId(txs[i]), txs[i].outputs, if coinbase then Some(applied) else None);
        if coinbase {
          emitted := emitted + RewardOfSlot(applied);
        }
      }
      utxos, spent := utxos - draft.spent, spent + draft.spent;
      spentValue := spentValue + draft.spentValue;
      applied := applied + 1;
    }

    method Create(id: Hash, outputs: seq<TxOut>, slot: Option<nat>)
      modifies this`utxos, this`created
      ensures utxos == Created(old(utxos), id, 0, outputs, slot) && created == old(created) + Sum(outputs)
    {
      for i := 0 to |outputs|
        invariant Created(utxos, id, i, outputs[i..], slot) == Created(old(utxos), id, 0, outputs, slot)
        invariant created + Sum(outputs[i..]) == old(created) + Sum(outputs)
      {
        Tail(outputs, i);
        utxos := utxos[OutputRef(id, i) := Entry(outputs[i].address, outputs[i].amount, slot)];
        created := created + outputs[i].amount;
      }
    }

    /** Applies one block; a refused block changes nothing. */
    method ApplyBlock(rules: Rules, height: nat, txs: seq<Transaction>) returns (refusal: Option<StateError>)
      modifies this
      ensures var outcome := MirrorApply(rules, old(Value()), height, txs);
              if outcome.Success? then refusal.None? && Value() == outcome.value
              else refusal == Some(outcome.error) && Value() == old(Value())
    {
      hide MirrorTxs, MirrorCommit, SortedById;
      var sorted := Ledger.CheckSorted(rules, txs);
      if !sorted {
        return Some(UnsortedPayload);
      }
      if height == 0 {
        return if txs != [] then Some(GenesisPayload(|txs|)) else None;
      }
      var coinbases := Ledger.CountCoinbases(txs);
      if coinbases != 1 {
        return Some(CoinbaseCount(coinbases));
      }
      var draft := ValidateTxs(rules, height, Fees(txs), txs);
      if draft.Failure? {
        return Some(draft.error);
      }
      InsideCalendar(rules, Value(), height, Fees(txs), txs, EMPTY_DRAFT);
      Commit(rules, draft.value, txs);
      refusal := None;
    }

    /** Applies a whole order; a refusal leaves the state of the last accepted block. */
    method ApplyWholeOrder(rules: Rules, order: seq<Hash>, fetch: Hash -> Option<Payload>)
      returns (refusal: Option<StateError>)
      modifies this
      ensures MirrorOutcome(Value(), refusal) == MirrorOrder(rules, old(Value()), order, fetch)
    {
      hide MirrorApply;
      var first := true;
      for i := 0 to |order|
        invariant first == (i == 0)
        invariant first ==> Value() == old(Value())
        invariant !first ==>
          MirrorAll(rules, Value(), order[i..], fetch) == MirrorOrder(rules, old(Value()), order, fetch)
      {
        Tail(order, i);
        var payload := fetch(order[i]);
        if payload.None? {
          return Some(MissingPayload(order[i]));
        }
        if first {
          first := false;
          if payload.value.height != 0 {
            return Some(NotGenesis(payload.value.height));
          }
          if payload.value.txs != [] {
            return Some(GenesisPayload(|payload.value.txs|));
          }
          applied := 1;
          continue;
        }
        var refused := ApplyBlock(rules, payload.value.height, payload.value.txs);
        if refused.Some? {
          return refused;
        }
      }
      refusal := None;
    }
  }

  lemma {:induction false} InsideCalendar(
    rules: Rules, account: Account, height: nat, fees: nat, txs: seq<Transaction>, draft: Draft)
    requires MirrorTxs(rules, account, height, fees, txs, draft).Success? && Coinbases(txs) > 0
    ensures account.applied <= LAST_SLOT
    decreases |txs|
  {
    if !txs[0].txType.Coinbase? {
      hide MirrorTransfer;
      InsideCalendar(rules, account, height, fees, txs[1..], MirrorTransfer(rules, account, txs[0], draft).value);
    }
  }
}
