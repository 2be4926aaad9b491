/**
 When a block is accepted, and what it leaves, said of its transactions and of the ledger as they stood before: no
 overlay, no order of checks. An input needs an output that stands, unspent by any earlier input, under its own key
 and ten slots old if it was mined.
 */
module Verdicts {
  import opened Wrappers
  import opened Words
  import opened Ranking
  import opened Calendar
  import opened Transactions
  import opened Ledgers
  import opened Worths
  import opened Overlays
  import Supply
  import Treasuries

  // ----- one transfer over an overlay

  /** Whether an input may spend at a slot what stands in a pool under its reference. */
  ghost predicate Spendable(pool: Pool, slot: nat, input: TxIn) {
    && input.output in pool
    && pool[input.output].address.spend == input.key
    && (pool[input.output].coinbaseSlot.Some? ==> slot >= pool[input.output].coinbaseSlot.value + 10)
  }

  /** What the references of some inputs are worth in a pool. */
  ghost function InputValue(pool: Pool, inputs: seq<TxIn>): nat
    requires forall i | 0 <= i < |inputs| :: inputs[i].output in pool
  {
    if inputs == [] then 0 else pool[inputs[0].output].amount + InputValue(pool, inputs[1..])
  }

  ghost predicate AllSpendable(pool: Pool, slot: nat, inputs: seq<TxIn>, spent: set<OutputRef>) {
    && (forall i | 0 <= i < |inputs| :: Spendable(pool, slot, inputs[i]) && inputs[i].output !in spent)
    && forall i, j | 0 <= i < j < |inputs| :: inputs[i].output != inputs[j].output
  }

  lemma ConsumeOneExactly(books: Books, made: Pool, slot: nat, input: TxIn, so: Consumed)
    ensures var pool, r := made + books.utxos, ConsumeOne(books, made, slot, input, so);
            && (r.Success? <==> Spendable(pool, slot, input) && input.output !in so.spent
                                && so.value + pool[input.output].amount <= U64_MAX)
            && (r.Success? ==> r.value == Consumed(so.spent + {input.output}, so.value + pool[input.output].amount))
  {
  }

  lemma AllSpendableStep(pool: Pool, slot: nat, inputs: seq<TxIn>, spent: set<OutputRef>)
    requires inputs != []
    ensures AllSpendable(pool, slot, inputs, spent) <==>
            && Spendable(pool, slot, inputs[0]) && inputs[0].output !in spent
            && AllSpendable(pool, slot, inputs[1..], spent + {inputs[0].output})
  {
    hide Spendable;
    var rest := inputs[1..];
    assert forall i | 0 < i < |inputs| :: inputs[i] == rest[i - 1];
    if AllSpendable(pool, slot, rest, spent + {inputs[0].output})
       && Spendable(pool, slot, inputs[0]) && inputs[0].output !in spent {
      forall i, j | 0 <= i < j < |inputs| ensures inputs[i].output != inputs[j].output {
        if i > 0 {
          assert rest[i - 1].output != rest[j - 1].output;
        }
      }
    }
  }

  lemma {:induction false} ConsumeExactly(books: Books, made: Pool, slot: nat, inputs: seq<TxIn>, so: Consumed)
    ensures var pool, r := made + books.utxos, Consume(books, made, slot, inputs, so);
            && (r.Success? <==> AllSpendable(pool, slot, inputs, so.spent)
                                && so.value + InputValue(pool, inputs) <= U64_MAX)
            && (r.Success? ==>
                  r.value == Consumed(so.spent + Refs(InputRefs(inputs)), so.value + InputValue(pool, inputs)))
    decreases |inputs|
  {
    hide ConsumeOne, Spendable, AllSpendable;
    var pool := made + books.utxos;
    if inputs == [] {
      NoneSpendable(pool, slot, so.spent);
      assert so.spent + Refs([]) == so.spent;
    } else {
      AllSpendableStep(pool, slot, inputs, so.spent);
      ConsumeOneExactly(books, made, slot, inputs[0], so);
      var next := ConsumeOne(books, made, slot, inputs[0], so);
      if next.Success? {
        ConsumeExactly(books, made, slot, inputs[1..], next.value);
        RefsAppend([inputs[0].output], InputRefs(inputs[1..]));
      }
    }
  }

  lemma NoneSpendable(pool: Pool, slot: nat, spent: set<OutputRef>)
    ensures AllSpendable(pool, slot, [], spent)
  {
  }

  /** The reference of an output nothing has ever stood at. */
  ghost predicate Unused(books: Books, made: Pool, r: OutputRef) {
    r !in books.utxos && r !in made && r !in books.spent
  }

  lemma {:induction false} RegisterExactly(books: Books, id: Hash, index: nat, outputs: seq<TxOut>, made: Pool)
    ensures var r := Register(books, id, index, outputs, made);
            && (r.Success? <==> forall k | index <= k < index + |outputs| :: Unused(books, made, OutputRef(id, k)))
            && (r.Success? ==> r.value == made + Made(id, index, outputs, None))
    decreases |outputs|
  {
    hide Made;
    if outputs != [] {
      var next := made[OutputRef(id, index) := Entry(outputs[0].address, outputs[0].amount, None)];
      RegisterExactly(books, id, index + 1, outputs[1..], next);
      assert forall k | index < k < index + |outputs| ::
          Unused(books, next, OutputRef(id, k)) <==> Unused(books, made, OutputRef(id, k));
    }
    if Register(books, id, index, outputs, made).Success? {
      RegisterFacts(books, id, index, outputs, made);
    }
  }

  /**
   A transfer is accepted exactly when it has inputs, each of another output that stands unspent, under the input's
   key and ten slots old if it was mined; its inputs are worth its fee and its outputs; no counter leaves the u64
   range; and none of the references it creates was ever in use. The overlay then holds its outputs too.
   */
  lemma TransferExactly(rules: Rules, books: Books, slot: nat, tx: Transaction, scratch: Scratch)
    ensures var pool, r := scratch.newOutputs + books.utxos, ValidateTransfer(rules, books, slot, tx, scratch);
            && (r.Success? <==>
                && tx.inputs != []
                && (forall i | 0 <= i < |tx.inputs| ::
                      Spendable(pool, slot, tx.inputs[i]) && tx.inputs[i].output !in scratch.spent)
                && (forall i, j | 0 <= i < j < |tx.inputs| :: tx.inputs[i].output != tx.inputs[j].output)
                && InputValue(pool, tx.inputs) == tx.fee + Sum(tx.outputs)
                && scratch.spentValue + tx.fee + Sum(tx.outputs) <= 0xFFFF_FFFF_FFFF_FFFF
                && forall k | 0 <= k < |tx.outputs| ::
                     Unused(books, scratch.newOutputs, OutputRef(rules.txId(tx), k)))
            && (r.Success? ==>
                  && r.value.newOutputs == scratch.newOutputs + Made(rules.txId(tx), 0, tx.outputs, None)
                  && r.value.spent == scratch.spent + Refs(InputRefs(tx.inputs))
                  && r.value.spentValue == scratch.spentValue + tx.fee + Sum(tx.outputs))
  {
    hide Consume, Register, Sum, Made, Spendable, InputRefs, InputValue, Unused;
    ConsumeExactly(books, scratch.newOutputs, slot, tx.inputs, Consumed(scratch.spent, 0));
    RegisterExactly(books, rules.txId(tx), 0, tx.outputs, scratch.newOutputs);
  }

  // ----- one coinbase

  /** The coinbase a slot owes its block. */
  ghost predicate CoinbaseIsDue(rules: Rules, slot: nat, height: nat, fees: nat, tx: Transaction) {
    && tx.inputs == [] && tx.fee == 0
    && |tx.extra| == 8 && LittleEndian(tx.extra) == height
    && slot <= 2_145_916_800
    && var reward := RewardOfSlot(slot);
    && Sum(tx.outputs) == reward + fees <= 0xFFFF_FFFF_FFFF_FFFF
    && if 1 <= slot <= 504_921_600 then
         |tx.outputs| == 2 && tx.outputs[1].address == rules.treasury && tx.outputs[1].amount == reward * 618 / 10_000
       else |tx.outputs| == 1
  }

  lemma CoinbaseExactly(rules: Rules, slot: nat, height: nat, fees: nat, tx: Transaction)
    ensures CoinbaseRefusal(rules, slot, height, fees, tx).None? <==> CoinbaseIsDue(rules, slot, height, fees, tx)
  {
    hide LittleEndian, RewardOfSlot, Sum;
  }

  // ----- the totals

  lemma {:induction false} SumExactly(outputs: seq<TxOut>, out: TxOut)
    ensures Sum([]) == 0 && Sum(outputs + [out]) == Sum(outputs) + out.amount
  {
    var all := outputs + [out];
    if outputs == [] {
      assert all[1..] == [];
    } else {
      SumExactly(outputs[1..], out);
      assert all[0] == outputs[0] && all[1..] == outputs[1..] + [out];
    }
  }

  /** What each total gains from one more transaction, starting from nothing. */
  lemma {:induction false} TotalsExactly(txs: seq<Transaction>, tx: Transaction)
    ensures Fees([]) == 0 && Supply.OutputTotal([]) == 0 && Moved([]) == 0
    ensures Fees(txs + [tx]) == Fees(txs) + if tx.txType.Coinbase? then 0 else tx.fee
    ensures Supply.OutputTotal(txs + [tx]) == Supply.OutputTotal(txs) + Sum(tx.outputs)
    ensures Moved(txs + [tx]) == Moved(txs) + if tx.txType.Coinbase? then 0 else tx.fee + Sum(tx.outputs)
  {
    hide Sum;
    var all := txs + [tx];
    if txs == [] {
      assert all[1..] == [];
    } else {
      TotalsExactly(txs[1..], tx);
      assert all[0] == txs[0] && all[1..] == txs[1..] + [tx];
    }
  }

  // ----- what a payload makes and names

  /** Whether a transaction brings an output under a reference. */
  ghost predicate Brings(rules: Rules, tx: Transaction, slot: Option<nat>, r: OutputRef, e: Entry) {
    && r.tx == rules.txId(tx) && r.index < |tx.outputs|
    && e == Entry(tx.outputs[r.index].address, tx.outputs[r.index].amount, slot)
  }

  /** Whether an input of a transaction names a reference. */
  ghost predicate Names(tx: Transaction, r: OutputRef) {
    exists n | 0 <= n < |tx.inputs| :: tx.inputs[n].output == r
  }

  lemma {:induction false} MadeExactly(id: Hash, index: nat, outputs: seq<TxOut>, slot: Option<nat>, r: OutputRef)
    ensures r in Made(id, index, outputs, slot) <==> r.tx == id && index <= r.index < index + |outputs|
    ensures r in Made(id, index, outputs, slot) ==>
              var out := outputs[r.index - index];
              Made(id, index, outputs, slot)[r] == Entry(out.address, out.amount, slot)
    decreases |outputs|
  {
    if outputs != [] {
      hide Made;
      MadeStep(id, index, outputs, slot);
      MadeExactly(id, index + 1, outputs[1..], slot, r);
    }
  }

  lemma {:induction false} MadeAllExactly(
    rules: Rules, txs: seq<Transaction>, coinbase: bool, slot: Option<nat>, r: OutputRef, e: Entry)
    requires SortedById(rules, txs)
    ensures var pool := MadeAll(rules, txs, coinbase, slot);
            r in pool && pool[r] == e <==>
            exists j | 0 <= j < |txs| :: txs[j].txType.Coinbase? == coinbase && Brings(rules, txs[j], slot, r, e)
    decreases |txs|
  {
    hide Made, SortedById;
    if txs != [] {
      var rest := txs[1..];
      SortedTail(rules, txs);
      MadeAllExactly(rules, rest, coinbase, slot, r, e);
      MadeExactly(rules.txId(txs[0]), 0, txs[0].outputs, slot, r);
      HeadIsApart(rules, txs, slot, coinbase, slot);
      if j :| 0 <= j < |txs| && txs[j].txType.Coinbase? == coinbase && Brings(rules, txs[j], slot, r, e) {
        assert j > 0 ==> rest[j - 1] == txs[j];
      }
      assert forall j | 0 <= j < |rest| :: rest[j] == txs[j + 1];
    }
  }

  lemma {:induction false} InputRefsExactly(inputs: seq<TxIn>, r: OutputRef)
    ensures r in InputRefs(inputs) <==> exists n | 0 <= n < |inputs| :: inputs[n].output == r
  {
    if inputs != [] {
      InputRefsExactly(inputs[1..], r);
      assert forall n | 0 < n < |inputs| :: inputs[n] == inputs[1..][n - 1];
    }
  }

  lemma {:induction false} NamedExactly(txs: seq<Transaction>, r: OutputRef)
    ensures r in Refs(Named(txs)) <==> exists m | 0 <= m < |txs| :: Names(txs[m], r)
  {
    if txs != [] {
      InputRefsExactly(txs[0].inputs, r);
      NamedExactly(txs[1..], r);
      RefsAppend(InputRefs(txs[0].inputs), Named(txs[1..]));
      assert forall m | 0 < m < |txs| :: txs[m] == txs[1..][m - 1];
    }
  }

  // ----- one block

  /** Whether an output stands under a reference once the first i transactions of a block have gone by. */
  ghost predicate Stands(rules: Rules, books: Books, txs: seq<Transaction>, i: nat, r: OutputRef, e: Entry)
    requires i <= |txs|
  {
    if r in books.utxos then e == books.utxos[r]
    else exists j | 0 <= j < i :: !txs[j].txType.Coinbase? && Brings(rules, txs[j], None, r, e)
  }

  ghost function Amounts(entries: seq<Entry>): nat {
    if entries == [] then 0 else entries[0].amount + Amounts(entries[1..])
  }

  /**
   Whether some entries fund transaction i of a block: one an input, standing, named by no earlier input, under the
   input's key and ten slots old if it was mined; worth the fee and the outputs, which take references never used.
   */
  ghost predicate Funds(rules: Rules, books: Books, txs: seq<Transaction>, i: nat, entries: seq<Entry>)
    requires i < |txs|
  {
    var tx := txs[i];
    && |entries| == |tx.inputs| > 0
    && (forall n | 0 <= n < |entries| ::
          && Stands(rules, books, txs, i, tx.inputs[n].output, entries[n])
          && (forall m | 0 <= m < i :: !Names(txs[m], tx.inputs[n].output))
          && (forall m | 0 <= m < n :: tx.inputs[m].output != tx.inputs[n].output)
          && entries[n].address.spend == tx.inputs[n].key
          && (entries[n].coinbaseSlot.Some? ==> books.applied >= entries[n].coinbaseSlot.value + 10))
    && Amounts(entries) == tx.fee + Sum(tx.outputs)
    && forall k | 0 <= k < |tx.outputs| ::
         OutputRef(rules.txId(tx), k) !in books.utxos && OutputRef(rules.txId(tx), k) !in books.spent
  }

  ghost predicate IsFunded(rules: Rules, books: Books, txs: seq<Transaction>, i: nat)
    requires i < |txs|
  {
    exists entries :: Funds(rules, books, txs, i, entries)
  }

  /** The overlay once the first i transactions of a block were accepted. */
  ghost predicate IsOverlay(rules: Rules, txs: seq<Transaction>, i: nat, scratch: Scratch)
    requires i <= |txs|
  {
    && scratch.newOutputs == MadeAll(rules, txs[..i], false, None)
    && scratch.spent == Refs(Named(txs[..i]))
    && scratch.spentValue == Moved(txs[..i])
  }

  lemma SortedPrefix(rules: Rules, txs: seq<Transaction>, i: nat)
    requires SortedById(rules, txs) && i <= |txs|
    ensures SortedById(rules, txs[..i])
  {
  }

  lemma {:induction false} SortedApart(rules: Rules, txs: seq<Transaction>, i: nat, j: nat)
    requires SortedById(rules, txs) && i < j < |txs|
    ensures rules.txId(txs[i]) < rules.txId(txs[j])
  {
    if i + 1 < j {
      SortedApart(rules, txs, i, j - 1);
    }
  }

  /** What the overlay holds before transaction i, beside the ledger, is what stands. */
  lemma OverlayStands(
    rules: Rules, books: Books, txs: seq<Transaction>, i: nat, scratch: Scratch, r: OutputRef, e: Entry)
    requires SortedById(rules, txs) && i <= |txs| && IsOverlay(rules, txs, i, scratch)
    ensures var pool := scratch.newOutputs + books.utxos;
            r in pool && pool[r] == e <==> Stands(rules, books, txs, i, r, e)
  {
    hide SortedById, Brings;
    SortedPrefix(rules, txs, i);
    MadeAllExactly(rules, txs[..i], false, None, r, e);
    assert forall j | 0 <= j < i :: txs[..i][j] == txs[j];
  }

  /** A transaction's own references are new to the overlay before it. */
  lemma OverlayIsOlder(rules: Rules, txs: seq<Transaction>, i: nat, scratch: Scratch, k: nat)
    requires SortedById(rules, txs) && i < |txs| && IsOverlay(rules, txs, i, scratch)
    ensures OutputRef(rules.txId(txs[i]), k) !in scratch.newOutputs
  {
    var r := OutputRef(rules.txId(txs[i]), k);
    if r in scratch.newOutputs {
      SortedPrefix(rules, txs, i);
      MadeAllExactly(rules, txs[..i], false, None, r, scratch.newOutputs[r]);
      var j :| 0 <= j < i && Brings(rules, txs[..i][j], None, r, scratch.newOutputs[r]);
      assert Brings(rules, txs[j], None, r, scratch.newOutputs[r]);
      SortedApart(rules, txs, j, i);
    }
  }

  lemma OverlayNames(rules: Rules, txs: seq<Transaction>, i: nat, scratch: Scratch, r: OutputRef)
    requires i <= |txs| && IsOverlay(rules, txs, i, scratch)
    ensures r !in scratch.spent <==> forall m | 0 <= m < i :: !Names(txs[m], r)
  {
    NamedExactly(txs[..i], r);
    assert forall m | 0 <= m < i :: txs[..i][m] == txs[m];
  }

  lemma {:induction false} AmountsExactly(pool: Pool, inputs: seq<TxIn>, entries: seq<Entry>)
    requires |entries| == |inputs|
    requires forall n | 0 <= n < |inputs| :: inputs[n].output in pool && pool[inputs[n].output] == entries[n]
    ensures InputValue(pool, inputs) == Amounts(entries)
  {
    if inputs != [] {
      AmountsExactly(pool, inputs[1..], entries[1..]);
    }
  }

  ghost function EntriesOf(pool: Pool, inputs: seq<TxIn>): (entries: seq<Entry>)
    requires forall n | 0 <= n < |inputs| :: inputs[n].output in pool
    ensures |entries| == |inputs| && forall n | 0 <= n < |inputs| :: entries[n] == pool[inputs[n].output]
  {
    if inputs == [] then [] else [pool[inputs[0].output]] + EntriesOf(pool, inputs[1..])
  }

  lemma InputStands(
    rules: Rules, books: Books, txs: seq<Transaction>, i: nat, scratch: Scratch, n: nat, e: Entry)
    requires SortedById(rules, txs) && i < |txs| && IsOverlay(rules, txs, i, scratch) && n < |txs[i].inputs|
    ensures var input, pool := txs[i].inputs[n], scratch.newOutputs + books.utxos;
            (Spendable(pool, books.applied, input) && input.output !in scratch.spent && pool[input.output] == e) <==>
            && Stands(rules, books, txs, i, input.output, e)
            && (forall m | 0 <= m < i :: !Names(txs[m], input.output))
            && e.address.spend == input.key
            && (e.coinbaseSlot.Some? ==> books.applied >= e.coinbaseSlot.value + 10)
  {
    hide SortedById, IsOverlay, Stands, Names;
    var r := txs[i].inputs[n].output;
    OverlayStands(rules, books, txs, i, scratch, r, e);
    OverlayNames(rules, txs, i, scratch, r);
  }

  lemma OutputsUnused(rules: Rules, books: Books, txs: seq<Transaction>, i: nat, scratch: Scratch)
    requires SortedById(rules, txs) && i < |txs| && IsOverlay(rules, txs, i, scratch)
    ensures var tx := txs[i];
            (forall k | 0 <= k < |tx.outputs| :: Unused(books, scratch.newOutputs, OutputRef(rules.txId(tx), k))) <==>
            forall k | 0 <= k < |tx.outputs| ::
              OutputRef(rules.txId(tx), k) !in books.utxos && OutputRef(rules.txId(tx), k) !in books.spent
  {
    hide SortedById, IsOverlay;
    var tx := txs[i];
    forall k | 0 <= k < |tx.outputs| ensures OutputRef(rules.txId(tx), k) !in scratch.newOutputs {
      OverlayIsOlder(rules, txs, i, scratch, k);
    }
  }

  lemma AcceptedIsFunded(rules: Rules, books: Books, txs: seq<Transaction>, i: nat, scratch: Scratch)
    requires SortedById(rules, txs) && i < |txs| && IsOverlay(rules, txs, i, scratch)
    requires ValidateTransfer(rules, books, books.applied, txs[i], scratch).Success?
    ensures IsFunded(rules, books, txs, i)
  {
    hide SortedById, IsOverlay, Stands, Names, ValidateTransfer, Spendable, Unused, Sum;
    var tx, pool := txs[i], scratch.newOutputs + books.utxos;
    TransferExactly(rules, books, books.applied, tx, scratch);
    OutputsUnused(rules, books, txs, i, scratch);
    forall n | 0 <= n < |tx.inputs| ensures tx.inputs[n].output in pool {
      InPool(pool, books.applied, tx.inputs[n]);
    }
    var entries := EntriesOf(pool, tx.inputs);
    AmountsExactly(pool, tx.inputs, entries);
    forall n | 0 <= n < |entries|
      ensures Stands(rules, books, txs, i, tx.inputs[n].output, entries[n])
      ensures forall m | 0 <= m < i :: !Names(txs[m], tx.inputs[n].output)
      ensures entries[n].address.spend == tx.inputs[n].key
      ensures entries[n].coinbaseSlot.Some? ==> books.applied >= entries[n].coinbaseSlot.value + 10
    {
      InputStands(rules, books, txs, i, scratch, n, entries[n]);
    }
    assert Funds(rules, books, txs, i, entries);
  }

  lemma InPool(pool: Pool, slot: nat, input: TxIn)
    requires Spendable(pool, slot, input)
    ensures input.output in pool
  {
  }

  lemma FundedIsAccepted(rules: Rules, books: Books, txs: seq<Transaction>, i: nat, scratch: Scratch)
    requires SortedById(rules, txs) && i < |txs| && IsOverlay(rules, txs, i, scratch)
    requires IsFunded(rules, books, txs, i)
    requires scratch.spentValue + txs[i].fee + Sum(txs[i].outputs) <= U64_MAX
    ensures ValidateTransfer(rules, books, books.applied, txs[i], scratch).Success?
  {
    hide SortedById, IsOverlay, Stands, Names, ValidateTransfer, Spendable, Unused, Sum;
    var tx, pool := txs[i], scratch.newOutputs + books.utxos;
    var entries :| Funds(rules, books, txs, i, entries);
    forall n | 0 <= n < |tx.inputs|
      ensures Spendable(pool, books.applied, tx.inputs[n]) && tx.inputs[n].output !in scratch.spent
      ensures tx.inputs[n].output in pool && pool[tx.inputs[n].output] == entries[n]
    {
      InputStands(rules, books, txs, i, scratch, n, entries[n]);
      InPool(pool, books.applied, tx.inputs[n]);
    }
    AmountsExactly(pool, tx.inputs, entries);
    OutputsUnused(rules, books, txs, i, scratch);
    TransferExactly(rules, books, books.applied, tx, scratch);
  }

  lemma {:induction false} MadeAllAppend(
    rules: Rules, txs: seq<Transaction>, tx: Transaction, coinbase: bool, slot: Option<nat>)
    ensures MadeAll(rules, txs + [tx], coinbase, slot) ==
            MadeAll(rules, txs, coinbase, slot) +
            if tx.txType.Coinbase? == coinbase then Made(rules.txId(tx), 0, tx.outputs, slot) else map[]
  {
    hide Made;
    var all := txs + [tx];
    var last := if tx.txType.Coinbase? == coinbase then Made(rules.txId(tx), 0, tx.outputs, slot) else map[];
    if txs == [] {
      assert all[1..] == [];
      assert last + map[] == map[] + last;
    } else {
      MadeAllAppend(rules, txs[1..], tx, coinbase, slot);
      assert all[0] == txs[0] && all[1..] == txs[1..] + [tx];
      var head := Made(rules.txId(txs[0]), 0, txs[0].outputs, slot);
      PoolsRegroup(if txs[0].txType.Coinbase? == coinbase then head else map[],
                   MadeAll(rules, txs[1..], coinbase, slot), last);
    }
  }

  lemma PoolsRegroup(a: Pool, b: Pool, c: Pool)
    ensures (a + b) + c == a + (b + c)
  {
  }

  lemma {:induction false} NamedAppend(txs: seq<Transaction>, tx: Transaction)
    ensures Named(txs + [tx]) == Named(txs) + InputRefs(tx.inputs)
  {
    hide InputRefs;
    var all := txs + [tx];
    if txs == [] {
      assert all[1..] == [];
      assert InputRefs(tx.inputs) + [] == InputRefs(tx.inputs);
    } else {
      NamedAppend(txs[1..], tx);
      assert all[0] == txs[0] && all[1..] == txs[1..] + [tx];
    }
  }

  lemma {:induction false} MovedGrows(txs: seq<Transaction>, i: nat)
    requires i <= |txs|
    ensures Moved(txs[..i]) <= Moved(txs)
    decreases |txs| - i
  {
    if i == |txs| {
      assert txs[..i] == txs;
    } else {
      MovedGrows(txs, i + 1);
      assert txs[..i + 1] == txs[..i] + [txs[i]];
      TotalsExactly(txs[..i], txs[i]);
    }
  }

  lemma NoNames(tx: Transaction)
    requires tx.inputs == []
    ensures InputRefs(tx.inputs) == []
  {
  }

  /** The overlay after one more transaction. */
  lemma OverlayGrows(
    rules: Rules, books: Books, txs: seq<Transaction>, i: nat, scratch: Scratch, height: nat, fees: nat)
    requires i < |txs| && IsOverlay(rules, txs, i, scratch)
    requires ValidateTx(rules, books, height, fees, txs[i], scratch).Success?
    ensures IsOverlay(rules, txs, i + 1, ValidateTx(rules, books, height, fees, txs[i], scratch).value)
  {
    hide ValidateTransfer, MadeAll, Named, Moved, InputRefs, Made, Sum, RewardOfSlot, LittleEndian;
    var tx := txs[i];
    assert txs[..i + 1] == txs[..i] + [tx];
    MadeAllAppend(rules, txs[..i], tx, false, None);
    NamedAppend(txs[..i], tx);
    TotalsExactly(txs[..i], tx);
    if tx.txType.Coinbase? {
      CoinbaseExactly(rules, books.applied, height, fees, tx);
      NoNames(tx);
      assert Named(txs[..i]) + [] == Named(txs[..i]);
      assert scratch.newOutputs + map[] == scratch.newOutputs;
    } else {
      TransferExactly(rules, books, books.applied, tx, scratch);
      RefsAppend(Named(txs[..i]), InputRefs(tx.inputs));
    }
  }

  /** Whether transaction i may stand in a block at its place: the coinbase the slot owes, or a funded transfer. */
  ghost predicate IsDue(rules: Rules, books: Books, height: nat, fees: nat, txs: seq<Transaction>, i: nat)
    requires i < |txs|
  {
    if txs[i].txType.Coinbase? then CoinbaseIsDue(rules, books.applied, height, fees, txs[i])
    else IsFunded(rules, books, txs, i)
  }

  lemma DueExactly(
    rules: Rules, books: Books, height: nat, fees: nat, txs: seq<Transaction>, i: nat, scratch: Scratch)
    requires SortedById(rules, txs) && i < |txs| && IsOverlay(rules, txs, i, scratch)
    ensures ValidateTx(rules, books, height, fees, txs[i], scratch).Success? <==>
            IsDue(rules, books, height, fees, txs, i) && Moved(txs[..i + 1]) <= U64_MAX
  {
    hide ValidateTransfer, CoinbaseRefusal, MadeAll, Named, Moved, SortedById, IsFunded, CoinbaseIsDue, Sum;
    var tx := txs[i];
    assert txs[..i + 1] == txs[..i] + [tx];
    TotalsExactly(txs[..i], tx);
    if tx.txType.Coinbase? {
      CoinbaseExactly(rules, books.applied, height, fees, tx);
    } else if IsFunded(rules, books, txs, i) && Moved(txs[..i + 1]) <= U64_MAX {
      FundedIsAccepted(rules, books, txs, i, scratch);
    } else if ValidateTransfer(rules, books, books.applied, tx, scratch).Success? {
      AcceptedIsFunded(rules, books, txs, i, scratch);
      OverlayGrows(rules, books, txs, i, scratch, height, fees);
    }
  }

  lemma {:induction false} PayloadExactly(
    rules: Rules, books: Books, height: nat, fees: nat, txs: seq<Transaction>, i: nat, scratch: Scratch)
    requires SortedById(rules, txs) && i <= |txs| && IsOverlay(rules, txs, i, scratch)
    ensures ValidateTxs(rules, books, height, fees, txs[i..], scratch).Success? <==>
            && (forall j | i <= j < |txs| :: IsDue(rules, books, height, fees, txs, j))
            && Moved(txs) <= U64_MAX
    ensures var end := ValidateTxs(rules, books, height, fees, txs[i..], scratch);
            end.Success? ==> IsOverlay(rules, txs, |txs|, end.value)
    decreases |txs| - i
  {
    hide ValidateTx, IsDue, SortedById, Moved, MadeAll, Named;
    if i == |txs| {
      assert txs[i..] == [] && txs[..i] == txs;
    } else {
      Tail(txs, i);
      DueExactly(rules, books, height, fees, txs, i, scratch);
      MovedGrows(txs, i + 1);
      var next := ValidateTx(rules, books, height, fees, txs[i], scratch);
      if next.Success? {
        OverlayGrows(rules, books, txs, i, scratch, height, fees);
        PayloadExactly(rules, books, height, fees, txs, i + 1, next.value);
      }
    }
  }

  lemma {:induction false} NoCoinbase(txs: seq<Transaction>)
    ensures Coinbases(txs) == 0 <==> forall i | 0 <= i < |txs| :: !txs[i].txType.Coinbase?
  {
    if txs != [] {
      NoCoinbase(txs[1..]);
      assert forall i | 0 < i < |txs| :: txs[i] == txs[1..][i - 1];
    }
  }

  /** Whether transaction c is the one coinbase of a payload. */
  ghost predicate IsSoleCoinbase(txs: seq<Transaction>, c: nat) {
    c < |txs| && txs[c].txType.Coinbase? && forall i | 0 <= i < |txs| && i != c :: !txs[i].txType.Coinbase?
  }

  lemma {:induction false} OneCoinbase(txs: seq<Transaction>)
    ensures Coinbases(txs) == 1 <==> exists c :: IsSoleCoinbase(txs, c)
  {
    if txs != [] {
      var rest := txs[1..];
      OneCoinbase(rest);
      NoCoinbase(rest);
      assert forall i | 0 < i < |txs| :: txs[i] == rest[i - 1];
      if txs[0].txType.Coinbase? {
        SoleHead(txs);
      } else {
        SoleLater(txs);
      }
    }
  }

  lemma SoleHead(txs: seq<Transaction>)
    requires txs != [] && txs[0].txType.Coinbase?
    ensures (exists c :: IsSoleCoinbase(txs, c)) <==> forall i | 0 <= i < |txs[1..]| :: !txs[1..][i].txType.Coinbase?
  {
    assert forall i | 0 < i < |txs| :: txs[i] == txs[1..][i - 1];
    if forall i | 0 <= i < |txs[1..]| :: !txs[1..][i].txType.Coinbase? {
      assert IsSoleCoinbase(txs, 0);
    } else {
      var i :| 0 <= i < |txs[1..]| && txs[1..][i].txType.Coinbase?;
      assert txs[i + 1].txType.Coinbase?;
    }
  }

  lemma SoleLater(txs: seq<Transaction>)
    requires txs != [] && !txs[0].txType.Coinbase?
    ensures (exists c :: IsSoleCoinbase(txs, c)) <==> exists c :: IsSoleCoinbase(txs[1..], c)
  {
    var rest := txs[1..];
    assert forall i | 0 < i < |txs| :: txs[i] == rest[i - 1];
    if c: nat :| IsSoleCoinbase(rest, c) {
      assert IsSoleCoinbase(txs, c + 1);
    }
    if c: nat :| IsSoleCoinbase(txs, c) {
      assert IsSoleCoinbase(rest, c - 1);
    }
  }

  /** The coinbase a slot owes its block, and nothing but funded transfers beside it. */
  ghost predicate IsBlockDue(rules: Rules, books: Books, height: nat, txs: seq<Transaction>, c: nat) {
    && IsSoleCoinbase(txs, c) && CoinbaseIsDue(rules, books.applied, height, Fees(txs), txs[c])
    && forall i | 0 <= i < |txs| && i != c :: IsFunded(rules, books, txs, i)
  }

  lemma DueSplits(rules: Rules, books: Books, height: nat, txs: seq<Transaction>, c: nat)
    requires IsSoleCoinbase(txs, c)
    ensures IsBlockDue(rules, books, height, txs, c) <==>
            forall i | 0 <= i < |txs| :: IsDue(rules, books, height, Fees(txs), txs, i)
  {
    hide CoinbaseIsDue, IsFunded, Fees;
    assert IsDue(rules, books, height, Fees(txs), txs, c) <==>
           CoinbaseIsDue(rules, books.applied, height, Fees(txs), txs[c]);
    assert forall i | 0 <= i < |txs| && i != c ::
        IsDue(rules, books, height, Fees(txs), txs, i) <==> IsFunded(rules, books, txs, i);
  }

  lemma SoleIsUnique(txs: seq<Transaction>, c: nat, d: nat)
    requires IsSoleCoinbase(txs, c) && IsSoleCoinbase(txs, d)
    ensures c == d < |txs|
  {
  }

  /**
   A block is accepted exactly when its ids ascend and, unless it is empty at height zero, one of its transactions is
   the coinbase the slot owes, every other one is funded, and what they move stays in the u64 range.
   */
  lemma BlockExactly(rules: Rules, books: Books, height: nat, txs: seq<Transaction>)
    ensures Apply(rules, books, height, txs).Success? <==>
            && (forall i | 0 < i < |txs| :: rules.txId(txs[i - 1]) < rules.txId(txs[i]))
            && if height == 0 then txs == [] else
                 (exists c :: IsBlockDue(rules, books, height, txs, c)) && Moved(txs) <= 0xFFFF_FFFF_FFFF_FFFF
  {
    hide ValidateTxs, CoinbaseIsDue, IsFunded, IsDue, Coinbases, Fees, Moved, Commit, IsSoleCoinbase;
    OneCoinbase(txs);
    if SortedById(rules, txs) && height != 0 && Coinbases(txs) == 1 {
      EmptyOverlay(rules, txs);
      assert txs[0..] == txs;
      PayloadExactly(rules, books, height, Fees(txs), txs, 0, EMPTY_SCRATCH);
      var c: nat :| IsSoleCoinbase(txs, c);
      DueSplits(rules, books, height, txs, c);
      if d: nat :| IsBlockDue(rules, books, height, txs, d) {
        SoleIsUnique(txs, c, d);
        assert IsBlockDue(rules, books, height, txs, c);
        DueFitsFees(rules, books.applied, height, Fees(txs), txs[c]);
        assert ValidateTxs(rules, books, height, Fees(txs), txs, EMPTY_SCRATCH).Success? <==> Moved(txs) <= U64_MAX;
      }
    }
  }

  lemma DueFitsFees(rules: Rules, slot: nat, height: nat, fees: nat, tx: Transaction)
    requires CoinbaseIsDue(rules, slot, height, fees, tx)
    ensures fees <= U64_MAX
  {
    hide RewardOfSlot, Sum, LittleEndian;
  }

  lemma EmptyOverlay(rules: Rules, txs: seq<Transaction>)
    ensures IsOverlay(rules, txs, 0, EMPTY_SCRATCH)
  {
    assert txs[..0] == [];
  }

  /**
   Whatever an accepted block spends stands in the ledger, or was brought by an earlier transaction of the block, under
   an address whose spend key is the key of the input; and what a coinbase of slot s brought waits for slot s + 10.
   */
  lemma SpentIsOwnedAndMature(
    rules: Rules, books: Books, height: nat, txs: seq<Transaction>, i: nat, n: nat) returns (e: Entry)
    requires Apply(rules, books, height, txs).Success? && i < |txs| && n < |txs[i].inputs|
    ensures Stands(rules, books, txs, i, txs[i].inputs[n].output, e)
    ensures e.address.spend == txs[i].inputs[n].key
    ensures e.coinbaseSlot.Some? ==> books.applied >= e.coinbaseSlot.value + 10
  {
    hide Apply, Stands, Names, CoinbaseIsDue, Fees, Moved;
    BlockExactly(rules, books, height, txs);
    var c: nat :| IsBlockDue(rules, books, height, txs, c);
    assert i != c && IsFunded(rules, books, txs, i) by {
      OthersAreFunded(rules, books, height, txs, c, i);
    }
    var entries :| Funds(rules, books, txs, i, entries);
    assert Funds(rules, books, txs, i, entries);
    e := entries[n];
  }

  lemma OthersAreFunded(rules: Rules, books: Books, height: nat, txs: seq<Transaction>, c: nat, i: nat)
    requires IsBlockDue(rules, books, height, txs, c) && i < |txs| && txs[i].inputs != []
    ensures i != c && IsFunded(rules, books, txs, i)
  {
    hide RewardOfSlot, Sum, LittleEndian, Fees, IsFunded;
  }

  // ----- what a block leaves

  /** The slot a transaction stamps on its outputs. */
  ghost function Stamp(books: Books, tx: Transaction): Option<nat> {
    if tx.txType.Coinbase? then Some(books.applied) else None
  }

  /**
   The ledger after an accepted block, reference by reference: what an input named is spent and gone; any other output
   of the block stands, a mined one with its slot; and what the block did not touch stands as before.
   */
  lemma LedgerExactly(rules: Rules, books: Books, height: nat, txs: seq<Transaction>, r: OutputRef)
    requires Apply(rules, books, height, txs).Success?
    ensures var after := Apply(rules, books, height, txs).value;
            var named := exists m | 0 <= m < |txs| :: Names(txs[m], r);
            && after.applied == books.applied + 1
            && (r in after.spent <==> r in books.spent || named)
            && (named ==> r !in after.utxos)
            && (forall m | 0 <= m < |txs| && !named && r.tx == rules.txId(txs[m]) && r.index < |txs[m].outputs| ::
                  var out := txs[m].outputs[r.index];
                  r in after.utxos && after.utxos[r] == Entry(out.address, out.amount, Stamp(books, txs[m])))
            && (!named && (forall m | 0 <= m < |txs| :: r.tx != rules.txId(txs[m]) || r.index >= |txs[m].outputs|) ==>
                  (r in after.utxos <==> r in books.utxos)
                  && (r in after.utxos ==> after.utxos[r] == books.utxos[r]))
  {
    hide Apply, Names, Named, MadeAll, SortedById;
    Supply.BlockCounts(rules, books, height, txs);
    Supply.BlockReferences(rules, books, height, txs);
    NamedExactly(txs, r);
    if height == 0 {
      EmptyBlock(rules, books, txs);
    } else {
      Treasuries.PoolAfter(rules, books, height, txs);
      AcceptedIsSorted(rules, books, height, txs);
      MadeAt(rules, books, txs, r);
    }
  }

  lemma EmptyBlock(rules: Rules, books: Books, txs: seq<Transaction>)
    requires Apply(rules, books, 0, txs).Success?
    ensures txs == [] && Apply(rules, books, 0, txs).value.utxos == books.utxos
  {
    EmptyCommit(rules, books);
  }

  lemma AcceptedIsSorted(rules: Rules, books: Books, height: nat, txs: seq<Transaction>)
    requires Apply(rules, books, height, txs).Success?
    ensures SortedById(rules, txs)
  {
    hide ValidateTxs, Commit;
  }

  /** What a payload brings under a reference, coinbase and transfers together. */
  lemma MadeAt(rules: Rules, books: Books, txs: seq<Transaction>, r: OutputRef)
    requires SortedById(rules, txs)
    ensures var pool := MadeAll(rules, txs, false, None) + Minting(rules, books, txs);
            && (forall m | 0 <= m < |txs| && r.tx == rules.txId(txs[m]) && r.index < |txs[m].outputs| ::
                  var out := txs[m].outputs[r.index];
                  r in pool && pool[r] == Entry(out.address, out.amount, Stamp(books, txs[m])))
            && (r in pool ==> exists m | 0 <= m < |txs| :: r.tx == rules.txId(txs[m]) && r.index < |txs[m].outputs|)
  {
    hide MadeAll, SortedById;
    var transfers, minted := MadeAll(rules, txs, false, None), Minting(rules, books, txs);
    TransfersApartFromCoinbase(rules, txs, Some(books.applied));
    forall m | 0 <= m < |txs| && r.tx == rules.txId(txs[m]) && r.index < |txs[m].outputs|
      ensures var out := txs[m].outputs[r.index];
              var pool := transfers + minted;
              r in pool && pool[r] == Entry(out.address, out.amount, Stamp(books, txs[m]))
    {
      var out := txs[m].outputs[r.index];
      var e := Entry(out.address, out.amount, Stamp(books, txs[m]));
      assert Brings(rules, txs[m], Stamp(books, txs[m]), r, e);
      MadeAllExactly(rules, txs, false, None, r, e);
      MadeAllExactly(rules, txs, true, Some(books.applied), r, e);
    }
    if r in transfers {
      MadeAllExactly(rules, txs, false, None, r, transfers[r]);
    } else if r in minted {
      MadeAllExactly(rules, txs, true, Some(books.applied), r, minted[r]);
    }
  }
}
