/**
 What an accepted block does, and why the scratch overlay is right: applying the block over the overlay
 and committing equals applying its transactions one at a time, unless an input names an output of the
 block's own coinbase.
 */
module Overlays {
  import opened Wrappers
  import opened Words
  import opened Ranking
  import opened Calendar
  import opened Transactions
  import opened Ledgers
  import opened Worths

  // ----- what a block creates and what it names

  /** The outputs of the coinbases, or of the other transactions, of a payload. */
  ghost function MadeAll(rules: Rules, txs: seq<Transaction>, coinbase: bool, slot: Option<nat>): Pool {
    if txs == [] then map[] else
      (if txs[0].txType.Coinbase? == coinbase then Made(rules.txId(txs[0]), 0, txs[0].outputs, slot) else map[])
      + MadeAll(rules, txs[1..], coinbase, slot)
  }

  /** The outputs the coinbase of a block brings. */
  ghost function Minting(rules: Rules, books: Books, txs: seq<Transaction>): Pool {
    MadeAll(rules, txs, true, Some(books.applied))
  }

  ghost function InputRefs(inputs: seq<TxIn>): seq<OutputRef> {
    if inputs == [] then [] else [inputs[0].output] + InputRefs(inputs[1..])
  }

  /** The references a payload consumes, in payload order. */
  ghost function Named(txs: seq<Transaction>): seq<OutputRef> {
    if txs == [] then [] else InputRefs(txs[0].inputs) + Named(txs[1..])
  }

  ghost function Refs(s: seq<OutputRef>): set<OutputRef> {
    set r | r in s
  }

  ghost predicate NoRepeats(s: seq<OutputRef>) {
    forall i, j | 0 <= i < j < |s| :: s[i] != s[j]
  }

  lemma RefsAppend(a: seq<OutputRef>, b: seq<OutputRef>)
    ensures Refs(a + b) == Refs(a) + Refs(b)
  {
  }

  lemma NoRepeatsAppend(a: seq<OutputRef>, b: seq<OutputRef>)
    requires NoRepeats(a) && NoRepeats(b) && Refs(a) !! Refs(b)
    ensures NoRepeats(a + b)
  {
    var s := a + b;
    forall i, j | 0 <= i < j < |s| ensures s[i] != s[j] {
      if i < |a| <= j {
        assert a[i] in Refs(a) && b[j - |a|] in Refs(b);
      }
    }
  }

  // ----- facts of an accepted transfer

  /** What stands unspent to a transaction: the ledger and the overlay. */
  ghost function Available(books: Books, made: Pool): Pool {
    books.utxos + made
  }

  ghost predicate Sound(books: Books, scratch: Scratch) {
    && scratch.newOutputs.Keys !! books.utxos.Keys
    && scratch.newOutputs.Keys !! books.spent
    && scratch.spent <= Available(books, scratch.newOutputs).Keys
  }

  lemma ConsumeOneFacts(books: Books, made: Pool, slot: nat, input: TxIn, so: Consumed)
    requires made.Keys !! books.utxos.Keys
    requires ConsumeOne(books, made, slot, input, so).Success?
    ensures var r, next := input.output, ConsumeOne(books, made, slot, input, so).value;
            && r in Available(books, made) && r !in so.spent && next.spent == so.spent + {r}
            && next.value == so.value + Available(books, made)[r].amount
  {
  }

  lemma {:induction false} ConsumeFacts(books: Books, made: Pool, slot: nat, inputs: seq<TxIn>, so: Consumed)
    requires made.Keys !! books.utxos.Keys
    requires Consume(books, made, slot, inputs, so).Success?
    ensures var end := Consume(books, made, slot, inputs, so).value;
            var pool := Available(books, made);
            && NoRepeats(InputRefs(inputs)) && Refs(InputRefs(inputs)) !! so.spent
            && Refs(InputRefs(inputs)) <= pool.Keys
            && end.spent == so.spent + Refs(InputRefs(inputs))
            && Worth(pool - end.spent) + end.value == Worth(pool - so.spent) + so.value
    decreases |inputs|
  {
    hide ConsumeOne, Worth, Available;
    if inputs == [] {
      assert so.spent + Refs([]) == so.spent;
    } else {
      var r := inputs[0].output;
      var next := ConsumeOne(books, made, slot, inputs[0], so).value;
      ConsumeOneFacts(books, made, slot, inputs[0], so);
      ConsumeFacts(books, made, slot, inputs[1..], next);
      var pool := Available(books, made);
      WorthSplit(pool - so.spent, r);
      assert (pool - so.spent) - {r} == pool - next.spent;
      var rest := InputRefs(inputs[1..]);
      RefsAppend([r], rest);
      assert Refs([r]) == {r};
      NoRepeatsAppend([r], rest);
    }
  }

  lemma {:induction false} RegisterFacts(books: Books, id: Hash, index: nat, outputs: seq<TxOut>, made: Pool)
    requires Register(books, id, index, outputs, made).Success?
    ensures var brought := Made(id, index, outputs, None);
            && Register(books, id, index, outputs, made).value == made + brought
            && brought.Keys !! made.Keys && brought.Keys !! books.utxos.Keys && brought.Keys !! books.spent
    decreases |outputs|
  {
    hide Made;
    if outputs == [] {
      MadeNothing(id, index);
      assert made + map[] == made;
    } else {
      var r := OutputRef(id, index);
      var e := Entry(outputs[0].address, outputs[0].amount, None);
      var rest := Made(id, index + 1, outputs[1..], None);
      RegisterFacts(books, id, index + 1, outputs[1..], made[r := e]);
      MadeStep(id, index, outputs, None);
      assert made[r := e] + rest == made + (map[r := e] + rest);
    }
  }

  lemma MadeNothing(id: Hash, index: nat)
    ensures Made(id, index, [], None) == map[]
  {
  }

  lemma MadeStep(id: Hash, index: nat, outputs: seq<TxOut>, slot: Option<nat>)
    requires outputs != []
    ensures var e := Entry(outputs[0].address, outputs[0].amount, slot);
            Made(id, index, outputs, slot) == map[OutputRef(id, index) := e] + Made(id, index + 1, outputs[1..], slot)
  {
    var r := OutputRef(id, index);
    var e := Entry(outputs[0].address, outputs[0].amount, slot);
    CreatedIsUnion(map[r := e], id, index + 1, outputs[1..], slot);
    assert map[][r := e] == map[r := e];
  }

  /** An accepted transfer: what it consumed, what it made, and that value is kept. */
  lemma TransferFacts(rules: Rules, books: Books, tx: Transaction, scratch: Scratch)
    requires Sound(books, scratch)
    requires ValidateTransfer(rules, books, books.applied, tx, scratch).Success?
    ensures var next := ValidateTransfer(rules, books, books.applied, tx, scratch).value;
            var refs := InputRefs(tx.inputs);
            var brought := Made(rules.txId(tx), 0, tx.outputs, None);
            && Sound(books, next)
            && NoRepeats(refs) && Refs(refs) !! scratch.spent
            && Refs(refs) <= Available(books, scratch.newOutputs).Keys
            && next.spent == scratch.spent + Refs(refs)
            && next.newOutputs == scratch.newOutputs + brought
            && brought.Keys !! scratch.newOutputs.Keys
            && next.spentValue == scratch.spentValue + tx.fee + Sum(tx.outputs)
            && Worth(Available(books, scratch.newOutputs) - next.spent) + tx.fee + Sum(tx.outputs) ==
               Worth(Available(books, scratch.newOutputs) - scratch.spent)
  {
    hide Consume, Register, Worth, Made, Sum;
    ConsumeFacts(books, scratch.newOutputs, books.applied, tx.inputs, Consumed(scratch.spent, 0));
    RegisterFacts(books, rules.txId(tx), 0, tx.outputs, scratch.newOutputs);
  }

  // ----- ids keep the transactions of a payload apart

  /** Every id of the payload lies above `floor`. */
  ghost predicate Above(rules: Rules, txs: seq<Transaction>, floor: int) {
    forall i | 0 <= i < |txs| :: rules.txId(txs[i]) > floor
  }

  lemma {:induction false} SortedHead(rules: Rules, txs: seq<Transaction>, i: nat)
    requires SortedById(rules, txs) && 0 < i < |txs|
    ensures rules.txId(txs[0]) < rules.txId(txs[i])
  {
    if i > 1 {
      SortedHead(rules, txs, i - 1);
    }
  }

  /** A sorted payload: the tail is sorted and lies above the head. */
  lemma SortedTail(rules: Rules, txs: seq<Transaction>)
    requires SortedById(rules, txs) && txs != []
    ensures SortedById(rules, txs[1..]) && Above(rules, txs[1..], rules.txId(txs[0]))
  {
    forall i | 0 <= i < |txs[1..]| ensures rules.txId(txs[1..][i]) > rules.txId(txs[0]) {
      SortedHead(rules, txs, i + 1);
    }
  }

  lemma {:induction false} MadeAllAbove(
    rules: Rules, txs: seq<Transaction>, coinbase: bool, slot: Option<nat>, floor: int)
    requires Above(rules, txs, floor)
    ensures forall r | r in MadeAll(rules, txs, coinbase, slot) ::
              r.tx > floor && MadeAll(rules, txs, coinbase, slot)[r].coinbaseSlot == slot
  {
    if txs != [] {
      assert rules.txId(txs[0]) > floor;
      forall i | 0 <= i < |txs[1..]| ensures rules.txId(txs[1..][i]) > floor {
        assert txs[1..][i] == txs[i + 1];
      }
      MadeAllAbove(rules, txs[1..], coinbase, slot, floor);
      CreatedIsUnion(map[], rules.txId(txs[0]), 0, txs[0].outputs, slot);
    }
  }

  /** The outputs of one transaction stay clear of the outputs of the later ones. */
  lemma HeadIsApart(rules: Rules, txs: seq<Transaction>, slot: Option<nat>, coinbase: bool, slot': Option<nat>)
    requires SortedById(rules, txs) && txs != []
    ensures Made(rules.txId(txs[0]), 0, txs[0].outputs, slot).Keys !! MadeAll(rules, txs[1..], coinbase, slot').Keys
  {
    hide Made, MadeAll;
    SortedTail(rules, txs);
    MadeAllAbove(rules, txs[1..], coinbase, slot', rules.txId(txs[0]));
    CreatedKeys(rules.txId(txs[0]), txs[0].outputs, slot);
  }

  lemma CreatedKeys(id: Hash, outputs: seq<TxOut>, slot: Option<nat>)
    ensures forall r | r in Made(id, 0, outputs, slot) ::
              r.tx == id && Made(id, 0, outputs, slot)[r].coinbaseSlot == slot
  {
    CreatedIsUnion(map[], id, 0, outputs, slot);
  }

  // ----- facts of an accepted payload

  lemma CoinbaseNamesNothing(rules: Rules, slot: nat, height: nat, fees: nat, tx: Transaction)
    requires CoinbaseRefusal(rules, slot, height, fees, tx).None?
    ensures InputRefs(tx.inputs) == [] && tx.fee == 0 && slot <= LAST_SLOT
    ensures Sum(tx.outputs) == RewardOfSlot(slot) + fees
  {
  }

  /** The value the transfers of a payload move: their outputs and their fees. */
  ghost function Moved(txs: seq<Transaction>): nat {
    if txs == [] then 0 else
      (if txs[0].txType.Coinbase? then 0 else txs[0].fee + Sum(txs[0].outputs)) + Moved(txs[1..])
  }

  /** An accepted payload: the overlay it ends with, and where every unit of value is. */
  lemma {:induction false} PayloadFacts(
    rules: Rules, books: Books, height: nat, fees: nat, txs: seq<Transaction>, scratch: Scratch)
    requires Sound(books, scratch) && SortedById(rules, txs)
    requires ValidateTxs(rules, books, height, fees, txs, scratch).Success?
    ensures var end := ValidateTxs(rules, books, height, fees, txs, scratch).value;
            var brought := MadeAll(rules, txs, false, None);
            && Sound(books, end)
            && end.newOutputs == scratch.newOutputs + brought && brought.Keys !! scratch.newOutputs.Keys
            && end.spent == scratch.spent + Refs(Named(txs))
            && NoRepeats(Named(txs)) && Refs(Named(txs)) !! scratch.spent
            && end.spentValue == scratch.spentValue + Moved(txs)
            && Worth(Available(books, end.newOutputs) - end.spent) + end.spentValue + Worth(scratch.newOutputs) ==
               Worth(Available(books, scratch.newOutputs) - scratch.spent) + scratch.spentValue + Worth(end.newOutputs)
    decreases |txs|
  {
    hide CoinbaseRefusal, ValidateTransfer, Worth, Made, Sound, Available, InputRefs, SortedById, Sum;
    if txs == [] {
      assert scratch.newOutputs + map[] == scratch.newOutputs && scratch.spent + Refs([]) == scratch.spent;
    } else {
      SortedTail(rules, txs);
      if txs[0].txType.Coinbase? {
        CoinbaseNamesNothing(rules, books.applied, height, fees, txs[0]);
        PayloadFacts(rules, books, height, fees, txs[1..], scratch);
        assert map[] + MadeAll(rules, txs[1..], false, None) == MadeAll(rules, txs[1..], false, None);
        assert Named(txs) == Named(txs[1..]);
      } else {
        var next := ValidateTransfer(rules, books, books.applied, txs[0], scratch).value;
        TransferFacts(rules, books, txs[0], scratch);
        PayloadFacts(rules, books, height, fees, txs[1..], next);
        PayloadStep(rules, books, txs, scratch, next, MadeAll(rules, txs[1..], false, None));
      }
    }
  }

  /** Puts the first transfer and the rest of a payload together. */
  lemma PayloadStep(rules: Rules, books: Books, txs: seq<Transaction>, scratch: Scratch, next: Scratch, rest: Pool)
    requires txs != [] && SortedById(rules, txs) && rest == MadeAll(rules, txs[1..], false, None)
    requires Sound(books, scratch) && Sound(books, next)
    requires var head := Made(rules.txId(txs[0]), 0, txs[0].outputs, None);
             next.newOutputs == scratch.newOutputs + head && head.Keys !! scratch.newOutputs.Keys
    requires next.spent == scratch.spent + Refs(InputRefs(txs[0].inputs))
    requires NoRepeats(InputRefs(txs[0].inputs)) && Refs(InputRefs(txs[0].inputs)) !! scratch.spent
    requires Refs(InputRefs(txs[0].inputs)) <= Available(books, scratch.newOutputs).Keys
    requires NoRepeats(Named(txs[1..])) && Refs(Named(txs[1..])) !! next.spent
    requires rest.Keys !! next.newOutputs.Keys
    ensures var head := Made(rules.txId(txs[0]), 0, txs[0].outputs, None);
            && next.newOutputs + rest == scratch.newOutputs + (head + rest)
            && (head + rest).Keys !! scratch.newOutputs.Keys
            && next.spent + Refs(Named(txs[1..])) == scratch.spent + Refs(Named(txs))
            && NoRepeats(Named(txs)) && Refs(Named(txs)) !! scratch.spent
            && Worth(Available(books, next.newOutputs) - next.spent) ==
               Worth(Available(books, scratch.newOutputs) - next.spent) + Sum(txs[0].outputs)
            && Worth(next.newOutputs) == Worth(scratch.newOutputs) + Sum(txs[0].outputs)
  {
    hide Worth, Made, MadeAll, InputRefs, SortedById, Sum;
    var head := Made(rules.txId(txs[0]), 0, txs[0].outputs, None);
    RefsAppend(InputRefs(txs[0].inputs), Named(txs[1..]));
    NoRepeatsAppend(InputRefs(txs[0].inputs), Named(txs[1..]));
    MadeIsWorth(rules.txId(txs[0]), 0, txs[0].outputs, None);
    WorthUnion(scratch.newOutputs, head);
    var before := Available(books, scratch.newOutputs) - next.spent;
    assert Available(books, next.newOutputs) - next.spent == before + head;
    WorthUnion(before, head);
  }

  // ----- what the commit writes

  /** The commit adds the transfer outputs and the coinbase outputs, and nothing else changes. */
  lemma {:induction false} CommitIsUnion(rules: Rules, books: Books, txs: seq<Transaction>)
    requires SortedById(rules, txs)
    ensures CommitTxs(rules, books, txs).utxos ==
            books.utxos + (MadeAll(rules, txs, false, None) + Minting(rules, books, txs))
    decreases |txs|
  {
    hide Made, Created, SortedById, Sum, RewardOfSlot;
    if txs == [] {
      assert books.utxos + (map[] + map[]) == books.utxos;
    } else {
      var next := CommitTx(rules, books, txs[0]);
      SortedTail(rules, txs);
      CommitIsUnion(rules, next, txs[1..]);
      var coinbase := txs[0].txType.Coinbase?;
      var slot := if coinbase then Some(books.applied) else None;
      CreatedIsUnion(books.utxos, rules.txId(txs[0]), 0, txs[0].outputs, slot);
      var head := Made(rules.txId(txs[0]), 0, txs[0].outputs, slot);
      var transfers := MadeAll(rules, txs[1..], false, None);
      var minted := MadeAll(rules, txs[1..], true, Some(books.applied));
      HeadIsApart(rules, txs, slot, false, None);
      HeadIsApart(rules, txs, slot, true, Some(books.applied));
      Regroup(books.utxos, head, transfers, minted, coinbase);
    }
  }

  lemma Regroup(pool: Pool, head: Pool, transfers: Pool, minted: Pool, coinbase: bool)
    requires head.Keys !! transfers.Keys && head.Keys !! minted.Keys
    ensures (pool + head) + (transfers + minted) ==
            pool + (((if !coinbase then head else map[]) + transfers) + ((if coinbase then head else map[]) + minted))
  {
  }

  // ----- one transaction at a time

  datatype Running = Running(books: Books, value: u64)

  /** The ledger after one validated transaction of the current slot. */
  function Settle(rules: Rules, books: Books, scratch: Scratch, value: u64, tx: Transaction): (r: Running)
    requires value <= scratch.spentValue
    ensures r.value == scratch.spentValue
  {
    var made := CommitTx(rules, books, tx);
    Running(made.(utxos := made.utxos - scratch.spent, spent := made.spent + scratch.spent,
                  spentValue := SaturatingAdd(made.spentValue, scratch.spentValue - value)),
            scratch.spentValue)
  }

  lemma SingleFacts(rules: Rules, books: Books, height: nat, fees: nat, tx: Transaction, value: u64)
    requires ValidateTx(rules, books, height, fees, tx, Scratch(map[], {}, value)).Success?
    ensures value <= ValidateTx(rules, books, height, fees, tx, Scratch(map[], {}, value)).value.spentValue
  {
  }

  /** The same rules with an empty overlay, the ledger updated after every transaction. */
  function OneByOne(rules: Rules, running: Running, height: nat, fees: nat, txs: seq<Transaction>)
    : Result<Running, StateError>
    decreases |txs|
  {
    if txs == [] then Success(running) else
      var checked := ValidateTx(rules, running.books, height, fees, txs[0], Scratch(map[], {}, running.value));
      if checked.Failure? then Failure(checked.error)
      else
        SingleFacts(rules, running.books, height, fees, txs[0], running.value);
        OneByOne(rules, Settle(rules, running.books, checked.value, running.value, txs[0]), height, fees, txs[1..])
  }

  /** A block applied without an overlay. */
  function Sequential(rules: Rules, books: Books, height: nat, txs: seq<Transaction>): Result<Books, StateError> {
    if !SortedById(rules, txs) then Failure(UnsortedPayload)
    else if height == 0 then
      if txs == [] then Success(books.(applied := books.applied + 1)) else Failure(GenesisPayload(|txs|))
    else if Coinbases(txs) != 1 then Failure(CoinbaseCount(Coinbases(txs)))
    else if Fees(txs) > U64_MAX then Failure(Overflow)
    else
      var end := OneByOne(rules, Running(books, 0), height, Fees(txs), txs);
      if end.Failure? then Failure(end.error)
      else Success(end.value.books.(applied := end.value.books.applied + 1))
  }

  // ----- the simulation

  /**
   Midway through a block: `books` with the overlay `scratch`, and the sequential ledger `seen`. What is
   minted so far is visible only to the latter.
   */
  ghost predicate Alike(books: Books, scratch: Scratch, minted: Pool, seen: Books) {
    && Sound(books, scratch)
    && minted.Keys !! scratch.newOutputs.Keys
    && (forall r | r in minted :: minted[r].coinbaseSlot == Some(books.applied))
    && seen.applied == books.applied
    && seen.utxos == (Available(books, scratch.newOutputs) - scratch.spent) + minted
    && seen.spent == books.spent + scratch.spent
  }

  lemma ConsumeOneAlike(
    books: Books, scratch: Scratch, minted: Pool, seen: Books, input: TxIn, so: Consumed, so': Consumed)
    requires Alike(books, scratch, minted, seen) && input.output !in minted
    requires so.value == so'.value && so.spent == scratch.spent + so'.spent
    requires so'.spent <= Available(books, scratch.newOutputs).Keys
    ensures var one := ConsumeOne(books, scratch.newOutputs, books.applied, input, so);
            var other := ConsumeOne(seen, map[], books.applied, input, so');
            && (one.Failure? ==> other == one)
            && (one.Success? ==> other.Success? && one.value.value == other.value.value
                                 && one.value.spent == scratch.spent + other.value.spent
                                 && other.value.spent <= Available(books, scratch.newOutputs).Keys)
  {
  }

  lemma {:induction false} ConsumeAlike(
    books: Books, scratch: Scratch, minted: Pool, seen: Books, inputs: seq<TxIn>, so: Consumed, so': Consumed)
    requires Alike(books, scratch, minted, seen) && Refs(InputRefs(inputs)) !! minted.Keys
    requires so.value == so'.value && so.spent == scratch.spent + so'.spent
    requires so'.spent <= Available(books, scratch.newOutputs).Keys
    ensures var one := Consume(books, scratch.newOutputs, books.applied, inputs, so);
            var other := Consume(seen, map[], books.applied, inputs, so');
            && (one.Failure? ==> other == one)
            && (one.Success? ==> other.Success? && one.value.value == other.value.value
                                 && one.value.spent == scratch.spent + other.value.spent)
    decreases |inputs|
  {
    hide ConsumeOne, Alike, Available;
    if inputs != [] {
      RefsAppend([inputs[0].output], InputRefs(inputs[1..]));
      assert inputs[0].output in Refs([inputs[0].output]);
      ConsumeOneAlike(books, scratch, minted, seen, inputs[0], so, so');
      var one := ConsumeOne(books, scratch.newOutputs, books.applied, inputs[0], so);
      if one.Success? {
        var other := ConsumeOne(seen, map[], books.applied, inputs[0], so');
        ConsumeAlike(books, scratch, minted, seen, inputs[1..], one.value, other.value);
      }
    }
  }

  /** An output minted in this very slot is never mature: naming one is refused. */
  lemma {:induction false} ConsumeMinted(
    books: Books, scratch: Scratch, minted: Pool, seen: Books, inputs: seq<TxIn>, so: Consumed)
    requires Alike(books, scratch, minted, seen) && !(Refs(InputRefs(inputs)) !! minted.Keys)
    ensures Consume(seen, map[], books.applied, inputs, so).Failure?
    decreases |inputs|
  {
    hide Available, Sound;
    var next := ConsumeOne(seen, map[], books.applied, inputs[0], so);
    if next.Success? {
      RefsAppend([inputs[0].output], InputRefs(inputs[1..]));
      assert Refs([inputs[0].output]) == {inputs[0].output};
      ConsumeMinted(books, scratch, minted, seen, inputs[1..], next.value);
    }
  }

  /** A new output may not take this reference. */
  ghost predicate Taken(books: Books, made: Pool, r: OutputRef) {
    r in books.utxos || r in made || r in books.spent
  }

  /** Both registrations meet the same collisions. */
  lemma {:induction false} RegisterAlike(
    books: Books, made: Pool, seen: Books, made': Pool, id: Hash, index: nat, outputs: seq<TxOut>)
    requires forall k: nat | k >= index :: Taken(books, made, OutputRef(id, k)) == Taken(seen, made', OutputRef(id, k))
    ensures var one := Register(books, id, index, outputs, made);
            var other := Register(seen, id, index, outputs, made');
            one.Failure? == other.Failure? && (one.Failure? ==> one.error == other.error)
    decreases |outputs|
  {
    if outputs != [] {
      var r := OutputRef(id, index);
      var e := Entry(outputs[0].address, outputs[0].amount, None);
      assert Taken(books, made, r) == Taken(seen, made', r);
      if !Taken(books, made, r) {
        forall k: nat | k >= index + 1
          ensures Taken(books, made[r := e], OutputRef(id, k)) == Taken(seen, made'[r := e], OutputRef(id, k))
        {
          assert Taken(books, made, OutputRef(id, k)) == Taken(seen, made', OutputRef(id, k));
        }
        RegisterAlike(books, made[r := e], seen, made'[r := e], id, index + 1, outputs[1..]);
      }
    }
  }

  /** No output of the pool belongs to a transaction of the payload. */
  ghost predicate Clear(rules: Rules, pool: Pool, txs: seq<Transaction>) {
    forall r | r in pool :: Above(rules, txs, r.tx)
  }

  /** Retiring a reference at once or at the end leaves the same outputs. */
  lemma RetireEarlyOrLate(
    pool: Pool, spent: set<OutputRef>, minted: Pool, head: Pool, taken: set<OutputRef>)
    requires head.Keys !! minted.Keys && taken !! minted.Keys && head.Keys !! pool.Keys
    requires taken <= pool.Keys && spent <= pool.Keys
    ensures (((pool - spent) + minted) + head) - taken == ((pool + head) - (spent + taken)) + minted
  {
    var left := (((pool - spent) + minted) + head) - taken;
    var right := ((pool + head) - (spent + taken)) + minted;
    assert left.Keys == right.Keys;
    forall r | r in left ensures left[r] == right[r] {
    }
    assert left == right;
  }

  lemma SettledUnion(
    books: Books, scratch: Scratch, minted: Pool, seen: Books, head: Pool, taken: set<OutputRef>, next: Scratch)
    requires Alike(books, scratch, minted, seen) && Sound(books, next)
    requires head.Keys !! minted.Keys && taken !! minted.Keys && head.Keys !! scratch.newOutputs.Keys
    requires head.Keys !! books.utxos.Keys && taken <= Available(books, scratch.newOutputs).Keys
    requires next.newOutputs == scratch.newOutputs + head && next.spent == scratch.spent + taken
    ensures (seen.utxos + head) - taken == (Available(books, next.newOutputs) - next.spent) + minted
    ensures minted.Keys !! next.newOutputs.Keys
    ensures seen.spent + taken == books.spent + next.spent
  {
    var pool := Available(books, scratch.newOutputs);
    assert Available(books, next.newOutputs) == pool + head;
    RetireEarlyOrLate(pool, scratch.spent, minted, head, taken);
  }

  /** A transfer that names nothing minted here fares the same over the overlay and one at a time. */
  lemma TransferAlike(rules: Rules, books: Books, scratch: Scratch, minted: Pool, seen: Books, tx: Transaction)
    requires Alike(books, scratch, minted, seen) && !tx.txType.Coinbase?
    requires Refs(InputRefs(tx.inputs)) !! minted.Keys && Clear(rules, minted, [tx])
    ensures var one := ValidateTransfer(rules, books, books.applied, tx, scratch);
            var other := ValidateTransfer(rules, seen, books.applied, tx, Scratch(map[], {}, scratch.spentValue));
            && (one.Failure? ==> other == one)
            && (one.Success? ==>
                  && other.Success? && other.value.spentValue == one.value.spentValue
                  && one.value.spentValue >= scratch.spentValue
                  && Alike(books, one.value, minted, Settle(rules, seen, other.value, scratch.spentValue, tx).books))
  {
    hide Consume, Register, Sum, Created, Made, Alike, Available, Sound, InputRefs, Clear;
    var id := rules.txId(tx);
    assert scratch.spent + {} == scratch.spent;
    ConsumeAlike(books, scratch, minted, seen, tx.inputs, Consumed(scratch.spent, 0), Consumed({}, 0));
    SameCollisions(rules, books, scratch, minted, seen, tx);
    RegisterAlike(books, scratch.newOutputs, seen, map[], id, 0, tx.outputs);
    var one := ValidateTransfer(rules, books, books.applied, tx, scratch);
    if one.Success? {
      var other := ValidateTransfer(rules, seen, books.applied, tx, Scratch(map[], {}, scratch.spentValue));
      SettledAlike(rules, books, scratch, minted, seen, tx, one.value, other.value);
    }
  }

  lemma SameCollisions(rules: Rules, books: Books, scratch: Scratch, minted: Pool, seen: Books, tx: Transaction)
    requires Alike(books, scratch, minted, seen) && Clear(rules, minted, [tx])
    ensures forall k: nat ::
              Taken(books, scratch.newOutputs, OutputRef(rules.txId(tx), k)) ==
              Taken(seen, map[], OutputRef(rules.txId(tx), k))
  {
    ClearOf(rules, minted, tx);
  }

  lemma ClearOf(rules: Rules, pool: Pool, tx: Transaction)
    requires Clear(rules, pool, [tx])
    ensures forall r | r in pool :: r.tx < rules.txId(tx)
  {
    forall r | r in pool ensures r.tx < rules.txId(tx) {
      assert rules.txId([tx][0]) > r.tx;
    }
  }

  lemma SettledAlike(
    rules: Rules, books: Books, scratch: Scratch, minted: Pool, seen: Books, tx: Transaction,
    one: Scratch, other: Scratch)
    requires Alike(books, scratch, minted, seen) && !tx.txType.Coinbase? && Clear(rules, minted, [tx])
    requires Refs(InputRefs(tx.inputs)) !! minted.Keys
    requires ValidateTransfer(rules, books, books.applied, tx, scratch) == Success(one)
    requires ValidateTransfer(rules, seen, books.applied, tx, Scratch(map[], {}, scratch.spentValue)) == Success(other)
    requires one.spentValue == other.spentValue >= scratch.spentValue
    ensures Alike(books, one, minted, Settle(rules, seen, other, scratch.spentValue, tx).books)
  {
    hide Consume, Register, Sum, Created, Made, Available, Sound, InputRefs, Clear, Worth, ValidateTransfer;
    var id := rules.txId(tx);
    var head := Made(id, 0, tx.outputs, None);
    SoundOf(books, scratch, minted, seen);
    TransferFacts(rules, books, tx, scratch);
    EmptySound(seen, scratch.spentValue);
    TransferFacts(rules, seen, tx, Scratch(map[], {}, scratch.spentValue));
    CreatedIsUnion(seen.utxos, id, 0, tx.outputs, None);
    HeadClear(rules, minted, tx, None);
    HeadNew(books, scratch, one, head);
    assert other.spent == Refs(InputRefs(tx.inputs));
    SettledUnion(books, scratch, minted, seen, head, other.spent, one);
  }

  lemma SoundOf(books: Books, scratch: Scratch, minted: Pool, seen: Books)
    requires Alike(books, scratch, minted, seen)
    ensures Sound(books, scratch)
  {
  }

  lemma EmptySound(books: Books, value: u64)
    ensures Sound(books, Scratch(map[], {}, value))
  {
  }

  lemma HeadNew(books: Books, scratch: Scratch, next: Scratch, head: Pool)
    requires Sound(books, next) && next.newOutputs == scratch.newOutputs + head
    ensures head.Keys !! books.utxos.Keys
  {
  }

  lemma HeadClear(rules: Rules, pool: Pool, tx: Transaction, slot: Option<nat>)
    requires Clear(rules, pool, [tx])
    ensures Made(rules.txId(tx), 0, tx.outputs, slot).Keys !! pool.Keys
  {
    hide Made;
    CreatedKeys(rules.txId(tx), tx.outputs, slot);
    ClearOf(rules, pool, tx);
  }

  /** A coinbase adds its outputs to what only the sequential ledger sees. */
  lemma CoinbaseAlike(rules: Rules, books: Books, scratch: Scratch, minted: Pool, seen: Books, tx: Transaction)
    requires Alike(books, scratch, minted, seen) && tx.txType.Coinbase?
    requires Clear(rules, minted, [tx]) && Clear(rules, scratch.newOutputs, [tx])
    ensures var head := Made(rules.txId(tx), 0, tx.outputs, Some(books.applied));
            && Alike(books, scratch, minted + head,
                     Settle(rules, seen, Scratch(map[], {}, scratch.spentValue), scratch.spentValue, tx).books)
  {
    hide Made, Created, Sum, Clear, Sound;
    var slot := Some(books.applied);
    var head := Made(rules.txId(tx), 0, tx.outputs, slot);
    CreatedIsUnion(seen.utxos, rules.txId(tx), 0, tx.outputs, slot);
    CreatedKeys(rules.txId(tx), tx.outputs, slot);
    HeadClear(rules, scratch.newOutputs, tx, slot);
    var pool := Available(books, scratch.newOutputs) - scratch.spent;
    assert (pool + minted) + head == pool + (minted + head);
    assert (seen.utxos + head) - {} == seen.utxos + head && seen.spent + {} == seen.spent;
  }

  /** The counters of the sequential ledger follow those of the commit. */
  ghost predicate Counted(books: Books, scratch: Scratch, committed: Books, seen: Books) {
    && committed.applied == seen.applied == books.applied
    && committed.created == seen.created && committed.emitted == seen.emitted
    && seen.spentValue == SaturatingAdd(books.spentValue, scratch.spentValue)
  }

  lemma ClearParts(rules: Rules, pool: Pool, txs: seq<Transaction>)
    requires Clear(rules, pool, txs) && txs != []
    ensures Clear(rules, pool, [txs[0]]) && Clear(rules, pool, txs[1..])
  {
    forall r | r in pool ensures Above(rules, [txs[0]], r.tx) && Above(rules, txs[1..], r.tx) {
      assert Above(rules, txs, r.tx);
      assert rules.txId(txs[0]) > r.tx;
    }
  }

  lemma ClearWithHead(rules: Rules, pool: Pool, txs: seq<Transaction>, slot: Option<nat>)
    requires Clear(rules, pool, txs) && txs != [] && SortedById(rules, txs)
    ensures Clear(rules, pool + Made(rules.txId(txs[0]), 0, txs[0].outputs, slot), txs[1..])
  {
    hide Made;
    SortedTail(rules, txs);
    ClearParts(rules, pool, txs);
    CreatedKeys(rules.txId(txs[0]), txs[0].outputs, slot);
  }

  lemma MadeByTransfer(rules: Rules, books: Books, scratch: Scratch, tx: Transaction)
    requires Sound(books, scratch) && ValidateTransfer(rules, books, books.applied, tx, scratch).Success?
    ensures ValidateTransfer(rules, books, books.applied, tx, scratch).value.newOutputs ==
            scratch.newOutputs + Made(rules.txId(tx), 0, tx.outputs, None)
  {
    TransferFacts(rules, books, tx, scratch);
  }

  lemma SettleCounts(
    rules: Rules, books: Books, scratch: Scratch, committed: Books, seen: Books, next: Scratch, other: Scratch,
    tx: Transaction)
    requires Counted(books, scratch, committed, seen)
    requires next.spentValue == other.spentValue >= scratch.spentValue
    ensures Counted(books, next, CommitTx(rules, committed, tx),
                    Settle(rules, seen, other, scratch.spentValue, tx).books)
  {
    hide Created, Sum, RewardOfSlot;
    SaturatingChain(books.spentValue, scratch.spentValue, next.spentValue - scratch.spentValue);
  }

  /** Both ways agree on what a payload does, as long as no input names an output minted in it. */
  ghost predicate Agree(
    rules: Rules, books: Books, overlay: Result<Scratch, StateError>, oneByOne: Result<Running, StateError>,
    minted: Pool, committed: Books, named: set<OutputRef>)
  {
    && (overlay.Failure? ==> oneByOne.Failure? && (named !! minted.Keys ==> oneByOne.error == overlay.error))
    && (overlay.Success? && named !! minted.Keys ==> oneByOne.Success?)
    && (overlay.Success? && oneByOne.Success? ==>
          && Alike(books, overlay.value, minted, oneByOne.value.books)
          && Counted(books, overlay.value, committed, oneByOne.value.books))
  }

  /** What a transaction mints: its outputs if it is the coinbase. */
  ghost function Brought(rules: Rules, books: Books, tx: Transaction): Pool {
    if tx.txType.Coinbase? then Made(rules.txId(tx), 0, tx.outputs, Some(books.applied)) else map[]
  }

  /** The midway state of a payload: what the two ways have in common before `txs`. */
  ghost predicate Midway(
    rules: Rules, books: Books, txs: seq<Transaction>, scratch: Scratch, minted: Pool, committed: Books, seen: Books)
  {
    && SortedById(rules, txs)
    && Alike(books, scratch, minted, seen) && Counted(books, scratch, committed, seen)
    && Clear(rules, minted, txs) && Clear(rules, scratch.newOutputs, txs)
  }

  lemma CoinbaseHead(
    rules: Rules, books: Books, txs: seq<Transaction>, scratch: Scratch, minted: Pool, committed: Books, seen: Books)
    requires Midway(rules, books, txs, scratch, minted, committed, seen)
    requires txs != [] && txs[0].txType.Coinbase?
    ensures var next := Settle(rules, seen, Scratch(map[], {}, scratch.spentValue), scratch.spentValue, txs[0]).books;
            Midway(rules, books, txs[1..], scratch, minted + Brought(rules, books, txs[0]),
                   CommitTx(rules, committed, txs[0]), next)
  {
    hide Alike, Counted, Clear, SortedById, Made, CommitTx, Settle;
    ClearParts(rules, minted, txs);
    ClearParts(rules, scratch.newOutputs, txs);
    SortedTail(rules, txs);
    CoinbaseAlike(rules, books, scratch, minted, seen, txs[0]);
    SettleCounts(rules, books, scratch, committed, seen, scratch, Scratch(map[], {}, scratch.spentValue), txs[0]);
    ClearWithHead(rules, minted, txs, Some(books.applied));
  }

  lemma TransferHead(
    rules: Rules, books: Books, txs: seq<Transaction>, scratch: Scratch, minted: Pool, committed: Books, seen: Books)
    requires Midway(rules, books, txs, scratch, minted, committed, seen)
    requires txs != [] && !txs[0].txType.Coinbase? && Refs(InputRefs(txs[0].inputs)) !! minted.Keys
    ensures var one := ValidateTransfer(rules, books, books.applied, txs[0], scratch);
            var other := ValidateTransfer(rules, seen, books.applied, txs[0], Scratch(map[], {}, scratch.spentValue));
            && (one.Failure? ==> other == one)
            && (one.Success? ==>
                  && other.Success? && other.value.spentValue == one.value.spentValue >= scratch.spentValue
                  && Midway(rules, books, txs[1..], one.value, minted + Brought(rules, books, txs[0]),
                            CommitTx(rules, committed, txs[0]),
                            Settle(rules, seen, other.value, scratch.spentValue, txs[0]).books))
  {
    hide Alike, Counted, Clear, SortedById, Made, CommitTx, Settle, ValidateTransfer, InputRefs;
    ClearParts(rules, minted, txs);
    ClearParts(rules, scratch.newOutputs, txs);
    SortedTail(rules, txs);
    TransferAlike(rules, books, scratch, minted, seen, txs[0]);
    var one := ValidateTransfer(rules, books, books.applied, txs[0], scratch);
    if one.Success? {
      var other := ValidateTransfer(rules, seen, books.applied, txs[0], Scratch(map[], {}, scratch.spentValue));
      SoundOf(books, scratch, minted, seen);
      MadeByTransfer(rules, books, scratch, txs[0]);
      ClearWithHead(rules, scratch.newOutputs, txs, None);
      SettleCounts(rules, books, scratch, committed, seen, one.value, other.value, txs[0]);
      assert minted + map[] == minted;
    }
  }

  lemma MintedHead(books: Books, rules: Rules, scratch: Scratch, minted: Pool, seen: Books, tx: Transaction, value: u64)
    requires Alike(books, scratch, minted, seen) && !(Refs(InputRefs(tx.inputs)) !! minted.Keys)
    ensures ValidateTransfer(rules, seen, books.applied, tx, Scratch(map[], {}, value)).Failure?
  {
    ConsumeMinted(books, scratch, minted, seen, tx.inputs, Consumed({}, 0));
  }

  lemma SameSlot(
    rules: Rules, books: Books, txs: seq<Transaction>, scratch: Scratch, minted: Pool, committed: Books, seen: Books)
    requires Midway(rules, books, txs, scratch, minted, committed, seen)
    ensures seen.applied == books.applied == committed.applied && Alike(books, scratch, minted, seen)
  {
  }

  lemma AgreeOnMore(
    rules: Rules, books: Books, overlay: Result<Scratch, StateError>, oneByOne: Result<Running, StateError>,
    minted: Pool, committed: Books, named: set<OutputRef>, head: set<OutputRef>)
    requires Agree(rules, books, overlay, oneByOne, minted, committed, named)
    ensures Agree(rules, books, overlay, oneByOne, minted, committed, head + named)
  {
    hide Alike, Counted;
  }

  lemma AgreeRefused(
    rules: Rules, books: Books, overlay: Result<Scratch, StateError>, oneByOne: Result<Running, StateError>,
    minted: Pool, more: Pool, committed: Books, named: set<OutputRef>, head: set<OutputRef>)
    requires oneByOne.Failure?
    requires (overlay.Failure? && oneByOne.error == overlay.error) || !(head !! minted.Keys)
    ensures Agree(rules, books, overlay, oneByOne, minted + more, committed, head + named)
  {
    hide Alike, Counted;
  }

  /** The overlay and the one-by-one pass, side by side over a payload. */
  lemma {:induction false} Simulate(
    rules: Rules, books: Books, height: nat, fees: nat, txs: seq<Transaction>, scratch: Scratch, minted: Pool,
    committed: Books, seen: Books)
    requires Midway(rules, books, txs, scratch, minted, committed, seen)
    ensures Agree(rules, books, ValidateTxs(rules, books, height, fees, txs, scratch),
                  OneByOne(rules, Running(seen, scratch.spentValue), height, fees, txs),
                  minted + Minting(rules, books, txs), CommitTxs(rules, committed, txs), Refs(Named(txs)))
    decreases |txs|
  {
    hide Alike, Counted, Clear, SortedById, Made, CoinbaseRefusal, ValidateTransfer, CommitTx, Settle, InputRefs, Refs,
      Midway, Agree;
    SameSlot(rules, books, txs, scratch, minted, committed, seen);
    if txs == [] {
      assert minted + map[] == minted;
      assert Refs(Named(txs)) == {} by { NoRefs(); }
      EmptyAgrees(rules, books, txs, scratch, minted, committed, seen);
    } else {
      var tx := txs[0];
      var single := Scratch(map[], {}, scratch.spentValue);
      var more := Minting(rules, books, txs[1..]);
      var brought := Brought(rules, books, tx);
      var head, rest := Refs(InputRefs(tx.inputs)), Refs(Named(txs[1..]));
      RefsAppend(InputRefs(tx.inputs), Named(txs[1..]));
      assert (minted + brought) + more == minted + Minting(rules, books, txs);
      var one := ValidateTx(rules, books, height, fees, tx, scratch);
      var other := ValidateTx(rules, seen, height, fees, tx, single);
      if tx.txType.Coinbase? {
        CoinbaseHead(rules, books, txs, scratch, minted, committed, seen);
      } else if head !! minted.Keys {
        TransferHead(rules, books, txs, scratch, minted, committed, seen);
      } else {
        MintedHead(books, rules, scratch, minted, seen, tx, scratch.spentValue);
      }
      var overlay := ValidateTxs(rules, books, height, fees, txs, scratch);
      var oneByOne := OneByOne(rules, Running(seen, scratch.spentValue), height, fees, txs);
      if one.Success? && other.Success? {
        var next := Settle(rules, seen, other.value, scratch.spentValue, tx).books;
        Simulate(rules, books, height, fees, txs[1..], one.value, minted + brought, CommitTx(rules, committed, tx),
                 next);
        AgreeOnMore(rules, books, overlay, oneByOne, (minted + brought) + more, CommitTxs(rules, committed, txs),
                    rest, head);
      } else {
        AgreeRefused(rules, books, overlay, oneByOne, minted, Minting(rules, books, txs),
                     CommitTxs(rules, committed, txs), rest, head);
      }
    }
  }

  lemma EmptyAgrees(
    rules: Rules, books: Books, txs: seq<Transaction>, scratch: Scratch, minted: Pool, committed: Books, seen: Books)
    requires Midway(rules, books, txs, scratch, minted, committed, seen)
    ensures Agree(rules, books, Success(scratch), Success(Running(seen, scratch.spentValue)), minted, committed, {})
  {
  }

  lemma NoRefs()
    ensures Refs([]) == {}
  {
  }

  // ----- whole blocks

  /** The references a block names that its own coinbase creates. */
  ghost function OwnCoinbaseNamed(rules: Rules, books: Books, txs: seq<Transaction>): set<OutputRef> {
    Refs(Named(txs)) * Minting(rules, books, txs).Keys
  }

  lemma StartsMidway(rules: Rules, books: Books, txs: seq<Transaction>)
    requires SortedById(rules, txs)
    ensures Midway(rules, books, txs, EMPTY_SCRATCH, map[], books, books)
  {
    assert (Available(books, map[]) - {}) + map[] == books.utxos;
    assert books.spent + {} == books.spent;
  }

  lemma EndPools(ledger: Pool, transfers: Pool, minted: Pool, spent: set<OutputRef>)
    ensures spent !! minted.Keys ==>
              (ledger + (transfers + minted)) - spent == ((ledger + transfers) - spent) + minted
    ensures !(spent !! minted.Keys) ==>
              (ledger + (transfers + minted)) - spent != ((ledger + transfers) - spent) + minted
  {
    var left, right := (ledger + (transfers + minted)) - spent, ((ledger + transfers) - spent) + minted;
    if spent !! minted.Keys {
      forall r | r in left ensures left[r] == right[r] {
      }
      assert left.Keys == right.Keys;
    } else {
      var r :| r in spent && r in minted;
      assert r in right && r !in left;
    }
  }

  /** Both ways through an accepted payload: the books they end with differ in the block's own coinbase alone. */
  lemma SameEnd(rules: Rules, books: Books, height: nat, fees: nat, txs: seq<Transaction>)
    requires SortedById(rules, txs)
    requires ValidateTxs(rules, books, height, fees, txs, EMPTY_SCRATCH).Success?
    requires OneByOne(rules, Running(books, 0), height, fees, txs).Success?
    ensures var end := ValidateTxs(rules, books, height, fees, txs, EMPTY_SCRATCH).value;
            var other := OneByOne(rules, Running(books, 0), height, fees, txs).value.books;
            OwnCoinbaseNamed(rules, books, txs) == {} <==>
              Commit(rules, books, end, txs) == other.(applied := other.applied + 1)
  {
    hide MadeAll, OneByOne, ValidateTxs, Worth, Midway, Named, SortedById, Sound, CommitTxs;
    var end := ValidateTxs(rules, books, height, fees, txs, EMPTY_SCRATCH).value;
    var transfers, minted := MadeAll(rules, txs, false, None), Minting(rules, books, txs);
    StartsMidway(rules, books, txs);
    Simulate(rules, books, height, fees, txs, EMPTY_SCRATCH, map[], books, books);
    assert map[] + minted == minted && map[] + transfers == transfers;
    EmptySound(books, 0);
    PayloadFacts(rules, books, height, fees, txs, EMPTY_SCRATCH);
    assert {} + Refs(Named(txs)) == Refs(Named(txs));
    CommitIsUnion(rules, books, txs);
    EndPools(books.utxos, transfers, minted, end.spent);
  }

  lemma NoneNamed(rules: Rules, books: Books, txs: seq<Transaction>)
    requires OwnCoinbaseNamed(rules, books, txs) == {}
    ensures Refs(Named(txs)) !! (map[] + Minting(rules, books, txs)).Keys
  {
    hide MadeAll, Named;
    forall r | r in Refs(Named(txs)) ensures r !in Minting(rules, books, txs) {
      assert r !in OwnCoinbaseNamed(rules, books, txs);
    }
  }

  /**
   The overlay is right: unless a block names an output of its own coinbase, applying it over the overlay
   gives the books, or the error, of applying its transactions one at a time.
   */
  lemma OverlayIsSequential(rules: Rules, books: Books, height: nat, txs: seq<Transaction>)
    requires OwnCoinbaseNamed(rules, books, txs) == {}
    ensures Apply(rules, books, height, txs) == Sequential(rules, books, height, txs)
  {
    hide ValidateTxs, OneByOne, Commit, MadeAll, Named, SortedById, Midway, Alike, Counted;
    if SortedById(rules, txs) {
      StartsMidway(rules, books, txs);
      Simulate(rules, books, height, Fees(txs), txs, EMPTY_SCRATCH, map[], books, books);
      NoneNamed(rules, books, txs);
      if height == 0 && txs == [] {
        EmptyCommit(rules, books);
      } else if height != 0 && ValidateTxs(rules, books, height, Fees(txs), txs, EMPTY_SCRATCH).Success? {
        SameEnd(rules, books, height, Fees(txs), txs);
      }
    }
  }

  lemma EmptyCommit(rules: Rules, books: Books)
    ensures Commit(rules, books, EMPTY_SCRATCH, []) == books.(applied := books.applied + 1)
  {
    assert books.utxos - {} == books.utxos && books.spent + {} == books.spent;
  }

  /** One at a time never accepts more, and an accepted block comes out the same exactly under that condition. */
  lemma AcceptedBlocksAgree(rules: Rules, books: Books, height: nat, txs: seq<Transaction>)
    ensures Sequential(rules, books, height, txs).Success? ==> Apply(rules, books, height, txs).Success?
    ensures Apply(rules, books, height, txs).Success? ==>
              (Sequential(rules, books, height, txs) == Apply(rules, books, height, txs) <==>
               OwnCoinbaseNamed(rules, books, txs) == {})
  {
    hide ValidateTxs, OneByOne, Commit, MadeAll, Named, SortedById, Midway, Alike, Counted, OwnCoinbaseNamed;
    if SortedById(rules, txs) {
      StartsMidway(rules, books, txs);
      Simulate(rules, books, height, Fees(txs), txs, EMPTY_SCRATCH, map[], books, books);
      if OwnCoinbaseNamed(rules, books, txs) == {} {
        OverlayIsSequential(rules, books, height, txs);
      } else if height != 0 && Sequential(rules, books, height, txs).Success? {
        SameEnd(rules, books, height, Fees(txs), txs);
      } else if height == 0 && txs == [] {
        NothingNamed(rules, books);
      }
    }
  }

  lemma NothingNamed(rules: Rules, books: Books)
    ensures OwnCoinbaseNamed(rules, books, []) == {}
  {
  }

  /** A coinbase is new when no output of its own stands unspent already. */
  ghost predicate CoinbaseIsNew(rules: Rules, books: Books, txs: seq<Transaction>) {
    Minting(rules, books, txs).Keys !! books.utxos.Keys
  }

  lemma {:induction false} TransfersApartFromCoinbase(rules: Rules, txs: seq<Transaction>, slot: Option<nat>)
    requires SortedById(rules, txs)
    ensures MadeAll(rules, txs, false, None).Keys !! MadeAll(rules, txs, true, slot).Keys
  {
    hide Made, SortedById;
    if txs != [] {
      SortedTail(rules, txs);
      TransfersApartFromCoinbase(rules, txs[1..], slot);
      HeadIsApart(rules, txs, slot, false, None);
      HeadIsApart(rules, txs, None, true, slot);
    }
  }

  /** What an accepted block names of its own coinbase is an older output under a reused reference. */
  lemma AcceptedNamesOldOutputs(rules: Rules, books: Books, height: nat, txs: seq<Transaction>)
    requires Apply(rules, books, height, txs).Success?
    ensures OwnCoinbaseNamed(rules, books, txs) <= books.utxos.Keys
  {
    hide MadeAll, ValidateTxs, Worth, Named, SortedById, Commit;
    if height == 0 {
      NothingNamed(rules, books);
    } else {
      EmptySound(books, 0);
      PayloadFacts(rules, books, height, Fees(txs), txs, EMPTY_SCRATCH);
      TransfersApartFromCoinbase(rules, txs, Some(books.applied));
    }
  }

  /** With a new coinbase, overlay and one-at-a-time accept the same blocks and end in the same state. */
  lemma FreshCoinbaseAgrees(rules: Rules, books: Books, height: nat, txs: seq<Transaction>)
    requires CoinbaseIsNew(rules, books, txs)
    ensures Apply(rules, books, height, txs).Success? <==> Sequential(rules, books, height, txs).Success?
    ensures Apply(rules, books, height, txs).Success? ==>
              Apply(rules, books, height, txs) == Sequential(rules, books, height, txs)
  {
    hide Commit, Apply, Sequential, ValidateBlock, ValidateTxs;
    AcceptedBlocksAgree(rules, books, height, txs);
    if Apply(rules, books, height, txs).Success? {
      AcceptedNamesOldOutputs(rules, books, height, txs);
    }
  }
}
