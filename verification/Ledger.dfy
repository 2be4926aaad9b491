/**
 The UTXO ledger. `Books` is the value of a ledger; `Apply` says what applying one block does to it:
 every rule is checked over a scratch overlay first, then the overlay is committed. The class keeps
 the books in its fields and is proved against `Apply`.
 */
module Ledgers {
  import opened Wrappers
  import opened Words
  import opened Ranking
  import opened Calendar
  import opened Transactions

  datatype Entry = Entry(address: Address, amount: u64, coinbaseSlot: Option<nat>)

  datatype Payload = Payload(height: nat, txs: seq<Transaction>)

  /** What the ledger takes from outside: the transaction digest and the treasury address. */
  datatype Rules = Rules(txId: Transaction -> Hash, treasury: Address)

  datatype StateError =
    | MissingPayload(id: Hash)
    | NotGenesis(height: nat)
    | GenesisPayload(count: nat)
    | UnsortedPayload
    | CoinbaseCount(count: nat)
    | CoinbaseInputs(count: nat)
    | CoinbaseFee
    | CoinbaseExtra(length: nat)
    | CoinbaseHeight(declared: nat, block: nat)
    | CoinbaseOutputs(expectedCount: nat, foundCount: nat)
    | CoinbaseValue(expected: nat, found: nat)
    | CoinbaseTreasuryAddress
    | CoinbaseTreasuryShare(expected: nat, found: nat)
    | NoInputs
    | UnknownOutput(reference: OutputRef)
    | DoubleSpend(reference: OutputRef)
    | KeyNotBound(reference: OutputRef)
    | ImmatureCoinbase(reference: OutputRef, creatingSlot: nat, slot: nat)
    | Conservation(expected: nat, found: nat)
    | OutputCollision(reference: OutputRef)
    | Overflow
    | Panicked

  datatype Books = Books(
    utxos: map<OutputRef, Entry>, spent: set<OutputRef>, applied: nat, created: u64, spentValue: u64, emitted: u64)

  /** The outputs created and the references spent inside the block being validated. */
  datatype Scratch = Scratch(newOutputs: map<OutputRef, Entry>, spent: set<OutputRef>, spentValue: u64)

  datatype Consumed = Consumed(spent: set<OutputRef>, value: u64)

  const EMPTY_BOOKS := Books(map[], {}, 0, 0, 0, 0)
  const EMPTY_SCRATCH := Scratch(map[], {}, 0)

  // ----- sums and shapes

  function Sum(outputs: seq<TxOut>): nat {
    if outputs == [] then 0 else outputs[0].amount + Sum(outputs[1..])
  }

  /** The fees a block's coinbase claims. */
  function Fees(txs: seq<Transaction>): nat {
    if txs == [] then 0 else (if txs[0].txType.Coinbase? then 0 else txs[0].fee) + Fees(txs[1..])
  }

  function Coinbases(txs: seq<Transaction>): nat {
    if txs == [] then 0 else (if txs[0].txType.Coinbase? then 1 else 0) + Coinbases(txs[1..])
  }

  predicate SortedById(rules: Rules, txs: seq<Transaction>) {
    forall i | 0 < i < |txs| :: rules.txId(txs[i - 1]) < rules.txId(txs[i])
  }

  // ----- the coinbase rules

  /** The shape a coinbase must have at a slot: output count, treasury share, total. */
  function ExpectedCoinbase(slot: nat, fees: nat): (nat, nat, nat)
    requires slot <= LAST_SLOT
  {
    var reward := RewardOfSlot(slot);
    if TreasuryActiveAtSlot(slot) then (2, TreasuryShareOf(reward), reward + fees) else (1, 0, reward + fees)
  }

  /** The first coinbase rule broken, if any. Past the calendar, or past the u64 range, the code panics. */
  function CoinbaseRefusal(rules: Rules, slot: nat, height: nat, fees: nat, tx: Transaction): Option<StateError> {
    if tx.inputs != [] then Some(CoinbaseInputs(|tx.inputs|))
    else if tx.fee != 0 then Some(CoinbaseFee)
    else if |tx.extra| != 8 then Some(CoinbaseExtra(|tx.extra|))
    else if LittleEndian(tx.extra) != height then Some(CoinbaseHeight(LittleEndian(tx.extra), height))
    else if slot > LAST_SLOT || RewardOfSlot(slot) + fees > U64_MAX then Some(Panicked)
    else
      var (count, share, total) := ExpectedCoinbase(slot, fees);
      if |tx.outputs| != count then Some(CoinbaseOutputs(count, |tx.outputs|))
      else if Sum(tx.outputs) > U64_MAX then Some(Overflow)
      else if Sum(tx.outputs) != total then Some(CoinbaseValue(total, Sum(tx.outputs)))
      else if count == 2 && tx.outputs[1].address != rules.treasury then Some(CoinbaseTreasuryAddress)
      else if count == 2 && tx.outputs[1].amount != share then Some(CoinbaseTreasuryShare(share, tx.outputs[1].amount))
      else None
  }

  // ----- the transfer rules

  /** One input: existence, unspentness, key binding, maturity, in this order. */
  function ConsumeOne(books: Books, made: map<OutputRef, Entry>, slot: nat, input: TxIn, so: Consumed)
    : Result<Consumed, StateError>
  {
    var r := input.output;
    if r !in books.utxos && r !in made then
      Failure(if r in books.spent || r in so.spent then DoubleSpend(r) else UnknownOutput(r))
    else if r in so.spent then Failure(DoubleSpend(r))
    else
      var entry := if r in books.utxos then books.utxos[r] else made[r];
      if entry.address.spend != input.key then Failure(KeyNotBound(r))
      else if entry.coinbaseSlot.Some? && slot < entry.coinbaseSlot.value + MATURITY then
        Failure(ImmatureCoinbase(r, entry.coinbaseSlot.value, slot))
      else if so.value + entry.amount > U64_MAX then Failure(Overflow)
      else Success(Consumed(so.spent + {r}, so.value + entry.amount))
  }

  function Consume(books: Books, made: map<OutputRef, Entry>, slot: nat, inputs: seq<TxIn>, so: Consumed)
    : Result<Consumed, StateError>
    decreases |inputs|
  {
    if inputs == [] then Success(so) else
      var next := ConsumeOne(books, made, slot, inputs[0], so);
      if next.Failure? then next else Consume(books, made, slot, inputs[1..], next.value)
  }

  /** The new outputs enter the overlay unless a reference is already known. */
  function Register(books: Books, id: Hash, index: nat, outputs: seq<TxOut>, made: map<OutputRef, Entry>)
    : Result<map<OutputRef, Entry>, StateError>
    decreases |outputs|
  {
    if outputs == [] then Success(made) else
      var r := OutputRef(id, index);
      if r in books.utxos || r in made || r in books.spent then Failure(OutputCollision(r))
      else Register(books, id, index + 1, outputs[1..], made[r := Entry(outputs[0].address, outputs[0].amount, None)])
  }

  function ValidateTransfer(rules: Rules, books: Books, slot: nat, tx: Transaction, scratch: Scratch)
    : Result<Scratch, StateError>
  {
    if tx.inputs == [] then Failure(NoInputs) else
      var consumed := Consume(books, scratch.newOutputs, slot, tx.inputs, Consumed(scratch.spent, 0));
      if consumed.Failure? then Failure(consumed.error)
      else if tx.fee + Sum(tx.outputs) > U64_MAX then Failure(Overflow)
      else if consumed.value.value != tx.fee + Sum(tx.outputs) then
        Failure(Conservation(consumed.value.value, tx.fee + Sum(tx.outputs)))
      else if scratch.spentValue + consumed.value.value > U64_MAX then Failure(Overflow)
      else
        var made := Register(books, rules.txId(tx), 0, tx.outputs, scratch.newOutputs);
        if made.Failure? then Failure(made.error)
        else Success(Scratch(made.value, consumed.value.spent, scratch.spentValue + consumed.value.value))
  }

  // ----- one block

  function ValidateTx(rules: Rules, books: Books, height: nat, fees: nat, tx: Transaction, scratch: Scratch)
    : Result<Scratch, StateError>
  {
    if tx.txType.Coinbase? then
      var refusal := CoinbaseRefusal(rules, books.applied, height, fees, tx);
      if refusal.Some? then Failure(refusal.value) else Success(scratch)
    else ValidateTransfer(rules, books, books.applied, tx, scratch)
  }

  function ValidateTxs(rules: Rules, books: Books, height: nat, fees: nat, txs: seq<Transaction>, scratch: Scratch)
    : Result<Scratch, StateError>
    decreases |txs|
  {
    if txs == [] then Success(scratch) else
      var next := ValidateTx(rules, books, height, fees, txs[0], scratch);
      if next.Failure? then next else ValidateTxs(rules, books, height, fees, txs[1..], next.value)
  }

  function ValidateBlock(rules: Rules, books: Books, height: nat, txs: seq<Transaction>): Result<Scratch, StateError> {
    if !SortedById(rules, txs) then Failure(UnsortedPayload)
    else if height == 0 then if txs == [] then Success(EMPTY_SCRATCH) else Failure(GenesisPayload(|txs|))
    else if Coinbases(txs) != 1 then Failure(CoinbaseCount(Coinbases(txs)))
    else if Fees(txs) > U64_MAX then Failure(Overflow)
    else ValidateTxs(rules, books, height, Fees(txs), txs, EMPTY_SCRATCH)
  }

  /** The outputs of a transaction, written over whatever stood at their references. */
  function Created(utxos: map<OutputRef, Entry>, id: Hash, index: nat, outputs: seq<TxOut>, slot: Option<nat>)
    : map<OutputRef, Entry>
    decreases |outputs|
  {
    if outputs == [] then utxos else
      var entry := Entry(outputs[0].address, outputs[0].amount, slot);
      Created(utxos[OutputRef(id, index) := entry], id, index + 1, outputs[1..], slot)
  }

  /** A commit is only reached inside the calendar, as `AcceptedInCalendar` says. */
  function CommitTx(rules: Rules, books: Books, tx: Transaction): Books {
    var slot := if tx.txType.Coinbase? then Some(books.applied) else None;
    var reward := if tx.txType.Coinbase? && books.applied <= LAST_SLOT then RewardOfSlot(books.applied) else 0;
    books.(utxos := Created(books.utxos, rules.txId(tx), 0, tx.outputs, slot),
           created := SaturatingAdd(books.created, Sum(tx.outputs)),
           emitted := SaturatingAdd(books.emitted, reward))
  }

  function CommitTxs(rules: Rules, books: Books, txs: seq<Transaction>): (r: Books)
    ensures r.applied == books.applied && r.spent == books.spent && r.spentValue == books.spentValue
    decreases |txs|
  {
    if txs == [] then books else CommitTxs(rules, CommitTx(rules, books, txs[0]), txs[1..])
  }

  function Commit(rules: Rules, books: Books, scratch: Scratch, txs: seq<Transaction>): Books {
    var made := CommitTxs(rules, books, txs);
    Books(made.utxos - scratch.spent, made.spent + scratch.spent, made.applied + 1,
          made.created, SaturatingAdd(made.spentValue, scratch.spentValue), made.emitted)
  }

  /** Validation only accepts a payload inside the calendar. */
  lemma {:induction false} ValidatedInCalendar(
    rules: Rules, books: Books, height: nat, fees: nat, txs: seq<Transaction>, scratch: Scratch)
    requires ValidateTxs(rules, books, height, fees, txs, scratch).Success? && Coinbases(txs) > 0
    ensures books.applied <= LAST_SLOT
    decreases |txs|
  {
    if !txs[0].txType.Coinbase? {
      var next := ValidateTx(rules, books, height, fees, txs[0], scratch);
      ValidatedInCalendar(rules, books, height, fees, txs[1..], next.value);
    }
  }

  lemma AcceptedInCalendar(rules: Rules, books: Books, height: nat, txs: seq<Transaction>)
    requires ValidateBlock(rules, books, height, txs).Success?
    ensures Coinbases(txs) > 0 ==> books.applied <= LAST_SLOT
  {
    if height != 0 {
      ValidatedInCalendar(rules, books, height, Fees(txs), txs, EMPTY_SCRATCH);
    }
  }

  function Apply(rules: Rules, books: Books, height: nat, txs: seq<Transaction>): Result<Books, StateError> {
    var scratch := ValidateBlock(rules, books, height, txs);
    if scratch.Failure? then Failure(scratch.error)
    else Success(Commit(rules, books, scratch.value, txs))
  }

  // ----- a whole order

  datatype Outcome = Outcome(books: Books, refusal: Option<StateError>)

  /** The payloads after the genesis, one slot each; the first rejection stops the run where it stands. */
  function ApplyAll(rules: Rules, books: Books, order: seq<Hash>, fetch: Hash -> Option<Payload>): Outcome
    decreases |order|
  {
    if order == [] then Outcome(books, None)
    else if fetch(order[0]).None? then Outcome(books, Some(MissingPayload(order[0])))
    else
      var payload := fetch(order[0]).value;
      var next := Apply(rules, books, payload.height, payload.txs);
      if next.Failure? then Outcome(books, Some(next.error))
      else ApplyAll(rules, next.value, order[1..], fetch)
  }

  function ApplyOrder(rules: Rules, books: Books, order: seq<Hash>, fetch: Hash -> Option<Payload>): Outcome {
    if order == [] then Outcome(books, None)
    else if fetch(order[0]).None? then Outcome(books, Some(MissingPayload(order[0])))
    else
      var payload := fetch(order[0]).value;
      if payload.height != 0 then Outcome(books, Some(NotGenesis(payload.height)))
      else if payload.txs != [] then Outcome(books, Some(GenesisPayload(|payload.txs|)))
      else ApplyAll(rules, books.(applied := 1), order[1..], fetch)
  }

  /** A whole order takes a slot a block. */
  lemma {:induction false} FoldCountsSlots(rules: Rules, books: Books, order: seq<Hash>, fetch: Hash -> Option<Payload>)
    requires ApplyAll(rules, books, order, fetch).refusal.None?
    ensures ApplyAll(rules, books, order, fetch).books.applied == books.applied + |order|
    decreases |order|
  {
    hide ValidateBlock, CommitTxs;
    if order != [] {
      var payload := fetch(order[0]).value;
      FoldCountsSlots(rules, Apply(rules, books, payload.height, payload.txs).value, order[1..], fetch);
    }
  }

  // ----- the ledger itself

  lemma Tail<T>(s: seq<T>, i: nat)
    requires i < |s|
    ensures s[i..] != [] && s[i..][0] == s[i] && s[i..][1..] == s[i + 1..]
  {
  }

  /** The total of the amounts, or nothing when it leaves the u64 range. */
  method CheckedSum(start: u64, outputs: seq<TxOut>) returns (total: Option<u64>)
    ensures total == if start + Sum(outputs) > U64_MAX then None else Some(start + Sum(outputs))
  {
    var sum: u64 := start;
    for i := 0 to |outputs|
      invariant sum + Sum(outputs[i..]) == start + Sum(outputs)
    {
      Tail(outputs, i);
      if sum + outputs[i].amount > U64_MAX {
        return None;
      }
      sum := sum + outputs[i].amount;
    }
    total := Some(sum);
  }

  lemma SaturatingChain(a: nat, b: nat, c: nat)
    ensures SaturatingAdd(SaturatingAdd(a, b), c) == SaturatingAdd(a, b + c)
  {
  }

  class Ledger {
    var utxos: map<OutputRef, Entry>
    var spent: set<OutputRef>
    var applied: nat
    var created: u64
    var spentValue: u64
    var emitted: u64

    function Value(): Books
      reads this
    {
      Books(utxos, spent, applied, created, spentValue, emitted)
    }

    constructor ()
      ensures Value() == EMPTY_BOOKS
    {
      utxos, spent, applied := map[], {}, 0;
      created, spentValue, emitted := 0, 0, 0;
    }

    method ValidateCoinbase(rules: Rules, tx: Transaction, slot: nat, height: nat, fees: u64)
      returns (refusal: Option<StateError>)
      ensures refusal == CoinbaseRefusal(rules, slot, height, fees, tx)
    {
      if tx.inputs != [] {
        return Some(CoinbaseInputs(|tx.inputs|));
      }
      if tx.fee != 0 {
        return Some(CoinbaseFee);
      }
      if |tx.extra| != 8 {
        return Some(CoinbaseExtra(|tx.extra|));
      }
      var declared := LittleEndian(tx.extra);
      if declared != height {
        return Some(CoinbaseHeight(declared, height));
      }
      if slot > LAST_SLOT || RewardOfSlot(slot) + fees > U64_MAX {
        return Some(Panicked);
      }
      var (expectedCount, expectedTreasury, expectedTotal) := ExpectedCoinbase(slot, fees);
      if |tx.outputs| != expectedCount {
        return Some(CoinbaseOutputs(expectedCount, |tx.outputs|));
      }
      var foundTotal := CheckedSum(0, tx.outputs);
      if foundTotal.None? {
        return Some(Overflow);
      }
      if foundTotal.value != expectedTotal {
        return Some(CoinbaseValue(expectedTotal, foundTotal.value));
      }
      if expectedCount == 2 {
        if tx.outputs[1].address != rules.treasury {
          return Some(CoinbaseTreasuryAddress);
        }
        if tx.outputs[1].amount != expectedTreasury {
          return Some(CoinbaseTreasuryShare(expectedTreasury, tx.outputs[1].amount));
        }
      }
      refusal := None;
    }

    /** Resolves the inputs of a transfer over the ledger and the overlay. */
    method SpendInputs(slot: nat, inputs: seq<TxIn>, scratch: Scratch) returns (r: Result<Consumed, StateError>)
      ensures r == Consume(Value(), scratch.newOutputs, slot, inputs, Consumed(scratch.spent, 0))
    {
      hide ConsumeOne;
      var so := Consumed(scratch.spent, 0);
      for i := 0 to |inputs|
        invariant Consume(Value(), scratch.newOutputs, slot, inputs[i..], so) ==
                  Consume(Value(), scratch.newOutputs, slot, inputs, Consumed(scratch.spent, 0))
      {
        Tail(inputs, i);
        var next := SpendInput(slot, inputs[i], scratch.newOutputs, so);
        if next.Failure? {
          return next;
        }
        so := next.value;
      }
      r := Success(so);
    }

    method SpendInput(slot: nat, input: TxIn, made: map<OutputRef, Entry>, so: Consumed)
      returns (r: Result<Consumed, StateError>)
      ensures r == ConsumeOne(Value(), made, slot, input, so)
    {
      var reference := input.output;
      var entry: Entry;
      if reference in utxos {
        entry := utxos[reference];
      } else if reference in made {
        entry := made[reference];
      } else if reference in spent || reference in so.spent {
        return Failure(DoubleSpend(reference));
      } else {
        return Failure(UnknownOutput(reference));
      }
      if reference in so.spent {
        return Failure(DoubleSpend(reference));
      }
      if entry.address.spend != input.key {
        return Failure(KeyNotBound(reference));
      }
      if entry.coinbaseSlot.Some? {
        var creating := entry.coinbaseSlot.value;
        if slot < creating + MATURITY {
          return Failure(ImmatureCoinbase(reference, creating, slot));
        }
      }
      if so.value + entry.amount > U64_MAX {
        return Failure(Overflow);
      }
      r := Success(Consumed(so.spent + {reference}, so.value + entry.amount));
    }

    method RegisterOutputs(id: Hash, outputs: seq<TxOut>, scratch: Scratch)
      returns (r: Result<map<OutputRef, Entry>, StateError>)
      ensures r == Register(Value(), id, 0, outputs, scratch.newOutputs)
    {
      var made := scratch.newOutputs;
      for i := 0 to |outputs|
        invariant Register(Value(), id, i, outputs[i..], made) == Register(Value(), id, 0, outputs, scratch.newOutputs)
      {
        Tail(outputs, i);
        var reference := OutputRef(id, i);
        if reference in utxos || reference in made || reference in spent {
          return Failure(OutputCollision(reference));
        }
        made := made[reference := Entry(outputs[i].address, outputs[i].amount, None)];
      }
      r := Success(made);
    }

    method ValidateTransferOver(rules: Rules, tx: Transaction, slot: nat, scratch: Scratch)
      returns (r: Result<Scratch, StateError>)
      ensures r == ValidateTransfer(rules, Value(), slot, tx, scratch)
    {
      hide Consume, Register, Sum;
      if tx.inputs == [] {
        return Failure(NoInputs);
      }
      var consumed := SpendInputs(slot, tx.inputs, scratch);
      if consumed.Failure? {
        return Failure(consumed.error);
      }
      var inputValue := consumed.value.value;
      var outputValue := CheckedSum(tx.fee, tx.outputs);
      if outputValue.None? {
        return Failure(Overflow);
      }
      if inputValue != outputValue.value {
        return Failure(Conservation(inputValue, outputValue.value));
      }
      if scratch.spentValue + inputValue > U64_MAX {
        return Failure(Overflow);
      }
      var made := RegisterOutputs(rules.txId(tx), tx.outputs, scratch);
      if made.Failure? {
        return Failure(made.error);
      }
      r := Success(Scratch(made.value, consumed.value.spent, scratch.spentValue + inputValue));
    }

    /** Whether the ids ascend, as the pairwise pass over the payload finds it. */
    static method CheckSorted(rules: Rules, txs: seq<Transaction>) returns (sorted: bool)
      ensures sorted == SortedById(rules, txs)
    {
      var i := 1;
      while i < |txs|
        invariant forall j | 0 < j < i && j < |txs| :: rules.txId(txs[j - 1]) < rules.txId(txs[j])
      {
        if rules.txId(txs[i - 1]) >= rules.txId(txs[i]) {
          return false;
        }
        i := i + 1;
      }
      sorted := true;
    }

    static method CountCoinbases(txs: seq<Transaction>) returns (count: nat)
      ensures count == Coinbases(txs)
    {
      count := 0;
      for i := 0 to |txs|
        invariant count + Coinbases(txs[i..]) == Coinbases(txs)
      {
        Tail(txs, i);
        if txs[i].txType.Coinbase? {
          count := count + 1;
        }
      }
    }

    static method SumFees(txs: seq<Transaction>) returns (fees: Option<u64>)
      ensures fees == if Fees(txs) > U64_MAX then None else Some(Fees(txs))
    {
      var sum: u64 := 0;
      for i := 0 to |txs|
        invariant sum + Fees(txs[i..]) == Fees(txs)
      {
        Tail(txs, i);
        if !txs[i].txType.Coinbase? {
          if sum + txs[i].fee > U64_MAX {
            return None;
          }
          sum := sum + txs[i].fee;
        }
      }
      fees := Some(sum);
    }

    /** The pure phase: every rule over a scratch overlay, no mutation of the ledger. */
    method Validate(rules: Rules, height: nat, txs: seq<Transaction>) returns (r: Result<Scratch, StateError>)
      ensures r == ValidateBlock(rules, Value(), height, txs)
    {
      hide CoinbaseRefusal, ValidateTransfer, Coinbases, Fees, SortedById;
      var sorted := CheckSorted(rules, txs);
      if !sorted {
        return Failure(UnsortedPayload);
      }
      if height == 0 {
        if txs != [] {
          return Failure(GenesisPayload(|txs|));
        }
        return Success(EMPTY_SCRATCH);
      }
      var coinbases := CountCoinbases(txs);
      if coinbases != 1 {
        return Failure(CoinbaseCount(coinbases));
      }
      var fees := SumFees(txs);
      if fees.None? {
        return Failure(Overflow);
      }
      var scratch := EMPTY_SCRATCH;
      for i := 0 to |txs|
        invariant ValidateTxs(rules, Value(), height, fees.value, txs[i..], scratch) ==
                  ValidateTxs(rules, Value(), height, fees.value, txs, EMPTY_SCRATCH)
      {
        Tail(txs, i);
        if txs[i].txType.Coinbase? {
          var refusal := ValidateCoinbase(rules, txs[i], applied, height, fees.value);
          if refusal.Some? {
            return Failure(refusal.value);
          }
        } else {
          var next := ValidateTransferOver(rules, txs[i], applied, scratch);
          if next.Failure? {
            return next;
          }
          scratch := next.value;
        }
      }
      r := Success(scratch);
    }

    /** The outputs of one transaction become unspent and count as created. */
    method CreateOutputs(id: Hash, outputs: seq<TxOut>, slot: Option<nat>)
      modifies this`utxos, this`created
      ensures utxos == Created(old(utxos), id, 0, outputs, slot)
      ensures created == SaturatingAdd(old(created), Sum(outputs))
    {
      for i := 0 to |outputs|
        invariant Created(utxos, id, i, outputs[i..], slot) == Created(old(utxos), id, 0, outputs, slot)
        invariant SaturatingAdd(created, Sum(outputs[i..])) == SaturatingAdd(old(created), Sum(outputs))
      {
        Tail(outputs, i);
        utxos := utxos[OutputRef(id, i) := Entry(outputs[i].address, outputs[i].amount, slot)];
        SaturatingChain(created, outputs[i].amount, Sum(outputs[i + 1..]));
        created := SaturatingAdd(created, outputs[i].amount);
      }
    }

    /** The consumed references leave the unspent outputs and join the spent ones. */
    method RetireSpent(references: set<OutputRef>)
      modifies this`utxos, this`spent
      ensures utxos == old(utxos) - references && spent == old(spent) + references
    {
      var rest := references;
      while rest != {}
        invariant rest <= references
        invariant utxos - rest == old(utxos) - references && spent + rest == old(spent) + references
        decreases |rest|
      {
        var r :| r in rest;
        assert (utxos - {r}) - (rest - {r}) == utxos - rest;
        utxos := utxos - {r};
        spent := spent + {r};
        rest := rest - {r};
      }
    }

    /** The mutation phase: the scratch becomes the ledger. */
    method CommitBlock(rules: Rules, scratch: Scratch, txs: seq<Transaction>)
      requires Coinbases(txs) > 0 ==> applied <= LAST_SLOT
      modifies this
      ensures Value() == Commit(rules, old(Value()), scratch, txs)
    {
      hide Created, Sum;
      for i := 0 to |txs|
        invariant applied == old(applied)
        invariant Coinbases(txs[i..]) > 0 ==> applied <= LAST_SLOT
        invariant CommitTxs(rules, Value(), txs[i..]) == CommitTxs(rules, old(Value()), txs)
      {
        Tail(txs, i);
        var coinbase := txs[i].txType.Coinbase?;
        CreateOutputs(rules.txId(txs[i]), txs[i].outputs, if coinbase then Some(applied) else None);
        if coinbase {
          emitted := SaturatingAdd(emitted, RewardOfSlot(applied));
        }
      }
      RetireSpent(scratch.spent);
      spentValue := SaturatingAdd(spentValue, scratch.spentValue);
      applied := applied + 1;
    }

    /** Applies one block at the next slot, atomically: a refused block leaves the ledger where it stood. */
    method ApplyBlock(rules: Rules, height: nat, txs: seq<Transaction>) returns (refusal: Option<StateError>)
      modifies this
      ensures var outcome := Apply(rules, old(Value()), height, txs);
              if outcome.Success? then refusal.None? && Value() == outcome.value
              else refusal == Some(outcome.error) && Value() == old(Value())
    {
      hide ValidateBlock, Commit;
      var scratch := Validate(rules, height, txs);
      if scratch.Failure? {
        return Some(scratch.error);
      }
      AcceptedInCalendar(rules, Value(), height, txs);
      CommitBlock(rules, scratch.value, txs);
      refusal := None;
    }

    /** Applies a whole order: the genesis first, then every block at its slot. */
    method ApplyWholeOrder(rules: Rules, order: seq<Hash>, fetch: Hash -> Option<Payload>)
      returns (refusal: Option<StateError>)
      modifies this
      ensures Outcome(Value(), refusal) == ApplyOrder(rules, old(Value()), order, fetch)
    {
      hide Apply;
      var first := true;
      for i := 0 to |order|
        invariant first == (i == 0)
        invariant first ==> Value() == old(Value())
        invariant !first ==>
                    ApplyAll(rules, Value(), order[i..], fetch) == ApplyOrder(rules, old(Value()), order, fetch)
      {
        Tail(order, i);
        var payload := fetch(order[i]);
        if payload.None? {
          return Some(MissingPayload(order[i]));
        }
        if first {
          first := false;
          if payload.value.height != 0 {
            return Some(NotGenesis(payload.value.height));
          }
          if payload.value.txs != [] {
            return Some(GenesisPayload(|payload.value.txs|));
          }
          applied := 1;
          continue;
        }
        var refused := ApplyBlock(rules, payload.value.height, payload.value.txs);
        if refused.Some? {
          return refused;
        }
      }
      refusal := None;
    }

    /**
     The identity the node checks after every block. Its addition is unchecked: past the u64 range it panics in a
     build with overflow checks, and wraps in one without.
     */
    method CheckConservation(overflowChecks: bool) returns (refusal: Option<StateError>)
      ensures spentValue + emitted <= U64_MAX ==> (refusal.None? <==> created == spentValue + emitted)
      ensures spentValue + emitted > U64_MAX ==>
                if overflowChecks then refusal == Some(Panicked)
                else refusal.None? <==> created + U64_MAX + 1 == spentValue + emitted
      ensures refusal.Some? && refusal.value.Conservation? ==>
                refusal.value.expected == created && refusal.value.found == SaturatingAdd(spentValue, emitted)
    {
      var sum := spentValue + emitted;
      if sum > U64_MAX {
        if overflowChecks {
          return Some(Panicked);
        }
        sum := sum - U64_MAX - 1;
      }
      if created == sum {
        return None;
      }
      refusal := Some(Conservation(created, SaturatingAdd(spentValue, emitted)));
    }
  }
}
