/**
 The engine: store, transaction bodies and ledger moved together. As long as every call succeeds the ledger is a
 fresh ledger folded over the consensus order of the best tip, whether the engine extended it by a suffix or rebuilt
 it; one array lookup decides which. After a refusal it need not be: `SyncOf` says what the engine does in any state.
 */
module Engines {
  import opened Wrappers
  import opened Words
  import opened Ranking
  import opened Blocks
  import opened Graphs
  import opened Ancestry
  import opened Growth
  import opened Ordering
  import opened Calendar
  import opened Transactions
  import opened Ledgers
  import Stores
  import Overlays
  import Supply
  import Treasuries
  import Dags

  datatype Breach = Store(refusal: Stores.NodeError) | Ledger(error: StateError)

  /** The emission recomputed beside the ledger. */
  datatype EmissionChecks = EmissionChecks(expectedEmitted: u64, expectedTreasury: u64)

  function SlotApplied(checks: EmissionChecks, slot: nat): EmissionChecks
    requires slot <= LAST_SLOT
  {
    if slot == 0 then checks else
      var reward := RewardOfSlot(slot);
      EmissionChecks(
        SaturatingAdd(checks.expectedEmitted, reward),
        if TreasuryActiveAtSlot(slot) then SaturatingAdd(checks.expectedTreasury, TreasuryShareOf(reward))
        else checks.expectedTreasury)
  }

  /** The checks after a number of slots. */
  function ChecksAfter(slots: nat): EmissionChecks
    requires slots <= LAST_SLOT + 1
  {
    if slots == 0 then EmissionChecks(0, 0) else SlotApplied(ChecksAfter(slots - 1), slots - 1)
  }

  /** The checks after the slots from `start` on, up to and without `end`. */
  function ChecksRun(checks: EmissionChecks, start: nat, end: nat): EmissionChecks
    requires start <= end <= LAST_SLOT + 1
    decreases end
  {
    if start == end then checks else SlotApplied(ChecksRun(checks, start, end - 1), end - 1)
  }

  lemma {:induction false} ChecksJoin(start: nat, end: nat)
    requires start <= end <= LAST_SLOT + 1
    ensures ChecksRun(ChecksAfter(start), start, end) == ChecksAfter(end)
    decreases end
  {
    hide SlotApplied;
    if start < end {
      ChecksJoin(start, end - 1);
    }
  }

  lemma {:induction false} ChecksAreMinted(slots: nat)
    requires 1 <= slots <= LAST_SLOT + 1
    ensures ChecksAfter(slots).expectedEmitted == Minted(slots - 1)
  {
    hide RewardOfSlot;
    if slots == 1 {
      assert ChecksAfter(0) == EmissionChecks(0, 0);
    } else {
      ChecksAreMinted(slots - 1);
      MintedNeverExceedsCap(slots - 1);
    }
  }

  /** The recomputed treasury is the sum of the shares of the applied slots. */
  lemma {:induction false} ChecksAreShares(slots: nat)
    requires 1 <= slots <= LAST_SLOT + 1
    ensures ChecksAfter(slots).expectedTreasury == Treasuries.SharesOf(slots - 1) <= CAP_ATOMIC
  {
    hide RewardOfSlot, TreasuryActiveAtSlot, TreasuryShareOf;
    Treasuries.SharesWithinMinted(slots - 1);
    MintedNeverExceedsCap(slots - 1);
    if slots == 1 {
      assert ChecksAfter(0) == EmissionChecks(0, 0);
    } else {
      ChecksAreShares(slots - 1);
    }
  }

  // ----- payloads

  /** The bodies of a list of ids, unless one is missing. */
  function BodiesOf(txs: map<Hash, Transaction>, ids: seq<Hash>): Option<seq<Transaction>> {
    if ids == [] then Some([])
    else if ids[0] !in txs then None
    else
      var rest := BodiesOf(txs, ids[1..]);
      if rest.None? then None else Some([txs[ids[0]]] + rest.value)
  }

  /** The height and the transactions of a held block, unless a body is missing. */
  function PayloadIn(nodes: map<Hash, Stores.NodeData>, txs: map<Hash, Transaction>, id: Hash): Option<Payload> {
    if id !in nodes then None else
      var bodies := BodiesOf(txs, nodes[id].txIds);
      if bodies.None? then None else Some(Payload(nodes[id].header.height, bodies.value))
  }

  ghost function Fetch(nodes: map<Hash, Stores.NodeData>, txs: map<Hash, Transaction>): Hash -> Option<Payload> {
    (id: Hash) => PayloadIn(nodes, txs, id)
  }

  lemma {:induction false} BodiesExactly(txs: map<Hash, Transaction>, ids: seq<Hash>)
    ensures BodiesOf(txs, ids).Some? <==> forall i | 0 <= i < |ids| :: ids[i] in txs
    ensures BodiesOf(txs, ids).Some? ==>
              |BodiesOf(txs, ids).value| == |ids|
              && forall i | 0 <= i < |ids| :: BodiesOf(txs, ids).value[i] == txs[ids[i]]
  {
    if ids != [] {
      BodiesExactly(txs, ids[1..]);
      assert forall i | 0 < i < |ids| :: ids[i] == ids[1..][i - 1];
    }
  }

  /**
   What the folds below are fed. The payload of an id is there exactly when the block is held and every id it lists is
   registered, and then it is the height of the block and, position by position, the bodies of its list.
   */
  lemma FetchExactly(nodes: map<Hash, Stores.NodeData>, txs: map<Hash, Transaction>, id: Hash)
    ensures Fetch(nodes, txs)(id).Some? <==>
            id in nodes && forall i | 0 <= i < |nodes[id].txIds| :: nodes[id].txIds[i] in txs
    ensures Fetch(nodes, txs)(id).Some? ==>
              var payload, ids := Fetch(nodes, txs)(id).value, nodes[id].txIds;
              && payload.height == nodes[id].header.height && |payload.txs| == |ids|
              && forall i | 0 <= i < |ids| :: payload.txs[i] == txs[ids[i]]
  {
    hide BodiesOf;
    if id in nodes {
      BodiesExactly(txs, nodes[id].txIds);
    }
  }

  lemma {:induction false} BodiesStay(txs: map<Hash, Transaction>, more: map<Hash, Transaction>, ids: seq<Hash>)
    requires forall id | id in txs :: id in more && more[id] == txs[id]
    requires BodiesOf(txs, ids).Some?
    ensures BodiesOf(more, ids) == BodiesOf(txs, ids)
  {
    if ids != [] {
      BodiesStay(txs, more, ids[1..]);
    }
  }

  // ----- folding an order

  /** A fold over one order reads only the payloads of that order. */
  lemma {:induction false} FoldReadsOrder(
    rules: Rules, books: Books, order: seq<Hash>, one: Hash -> Option<Payload>, two: Hash -> Option<Payload>)
    requires forall i | 0 <= i < |order| :: one(order[i]).Some? ==> one(order[i]) == two(order[i])
    requires ApplyAll(rules, books, order, one).refusal.None?
    ensures ApplyAll(rules, books, order, one) == ApplyAll(rules, books, order, two)
    decreases |order|
  {
    hide Apply;
    if order != [] {
      var payload := one(order[0]).value;
      var next := Apply(rules, books, payload.height, payload.txs);
      assert one(order[0]) == two(order[0]);
      forall i | 0 <= i < |order[1..]| && one(order[1..][i]).Some? ensures one(order[1..][i]) == two(order[1..][i]) {
        assert order[1..][i] == order[i + 1];
      }
      FoldReadsOrder(rules, next.value, order[1..], one, two);
    }
  }

  /** A fold over a concatenation goes on from where the first part ended, unless that was refused. */
  lemma {:induction false} FoldSplit(
    rules: Rules, books: Books, order: seq<Hash>, more: seq<Hash>, fetch: Hash -> Option<Payload>)
    ensures var one := ApplyAll(rules, books, order, fetch);
            ApplyAll(rules, books, order + more, fetch) ==
            if one.refusal.Some? then one else ApplyAll(rules, one.books, more, fetch)
    decreases |order|
  {
    hide Apply;
    if order == [] {
      assert [] + more == more;
    } else {
      assert (order + more)[0] == order[0] && (order + more)[1..] == order[1..] + more;
      if fetch(order[0]).Some? {
        var payload := fetch(order[0]).value;
        var next := Apply(rules, books, payload.height, payload.txs);
        if next.Success? {
          FoldSplit(rules, next.value, order[1..], more, fetch);
        }
      }
    }
  }

  /** A fold from position i: what the payload there does, and the fold from the next one. */
  lemma FoldAt(rules: Rules, books: Books, order: seq<Hash>, i: nat, fetch: Hash -> Option<Payload>)
    requires i < |order|
    ensures ApplyAll(rules, books, order[i..], fetch) ==
            if fetch(order[i]).None? then Outcome(books, Some(MissingPayload(order[i])))
            else
              var payload := fetch(order[i]).value;
              var next := Apply(rules, books, payload.height, payload.txs);
              if next.Failure? then Outcome(books, Some(next.error))
              else ApplyAll(rules, next.value, order[i + 1..], fetch)
  {
    hide Apply;
    Tail(order, i);
  }

  /** A fold, refused or not, applied as many ids as slots went by: its books are those of that prefix. */
  lemma {:induction false} FoldPrefix(rules: Rules, books: Books, order: seq<Hash>, fetch: Hash -> Option<Payload>)
    ensures var end := ApplyAll(rules, books, order, fetch);
            && books.applied <= end.books.applied <= books.applied + |order|
            && ApplyAll(rules, books, order[..end.books.applied - books.applied], fetch) == Outcome(end.books, None)
            && (end.refusal.None? ==> end.books.applied == books.applied + |order|)
    decreases |order|
  {
    hide Apply;
    var end := ApplyAll(rules, books, order, fetch);
    if order != [] && fetch(order[0]).Some? {
      var payload := fetch(order[0]).value;
      var next := Apply(rules, books, payload.height, payload.txs);
      if next.Success? {
        OneSlot(rules, books, payload.height, payload.txs);
        FoldPrefix(rules, next.value, order[1..], fetch);
        var k := end.books.applied - books.applied;
        assert order[..k][0] == order[0] && order[..k][1..] == order[1..][..k - 1];
      }
    }
  }

  lemma OneSlot(rules: Rules, books: Books, height: nat, txs: seq<Transaction>)
    requires Apply(rules, books, height, txs).Success?
    ensures Apply(rules, books, height, txs).value.applied == books.applied + 1
  {
    hide ValidateBlock, CommitTxs;
  }

  // ----- the state of an engine

  /** The ledger is a fresh one folded over the consensus order of the frontier. */
  ghost predicate Exact(
    rules: Rules, g: Graph, nodes: map<Hash, Stores.NodeData>, txs: map<Hash, Transaction>, books: Books,
    frontier: Hash)
  {
    && g.Valid() && frontier in g.headers
    && ApplyAll(rules, EMPTY_BOOKS, g.Order(frontier), Fetch(nodes, txs)) == Outcome(books, None)
  }

  /** The ledger is exact, inside the calendar, and the emission checks beside it are those of its slots. */
  ghost predicate Settled(
    rules: Rules, g: Graph, nodes: map<Hash, Stores.NodeData>, txs: map<Hash, Transaction>, books: Books,
    frontier: Hash, checks: EmissionChecks)
  {
    && Exact(rules, g, nodes, txs, books, frontier)
    && 1 <= books.applied <= LAST_SLOT + 1
    && checks == ChecksAfter(books.applied)
  }

  /** A new block, or a new body, disturbs no payload the ledger has already applied. */
  lemma SettledStays(
    rules: Rules, g: Graph, h: Graph, nodes: map<Hash, Stores.NodeData>, nodes': map<Hash, Stores.NodeData>,
    txs: map<Hash, Transaction>, txs': map<Hash, Transaction>, books: Books, frontier: Hash, checks: EmissionChecks)
    requires Settled(rules, g, nodes, txs, books, frontier, checks) && h.Valid() && Extends(g, h)
    requires forall id | id in g.headers && id in nodes ::
               id in nodes' && nodes'[id].header == nodes[id].header && nodes'[id].txIds == nodes[id].txIds
    requires forall id | id in txs :: id in txs' && txs'[id] == txs[id]
    ensures Settled(rules, h, nodes', txs', books, frontier, checks)
  {
    hide ApplyAll, Apply, Graph.Order, ChecksAfter;
    OrderStable(g, h, frontier);
    var order := g.Order(frontier);
    var one, two := Fetch(nodes, txs), Fetch(nodes', txs');
    forall i | 0 <= i < |order| && one(order[i]).Some? ensures one(order[i]) == two(order[i]) {
      assert order[i] in g.headers;
      BodiesStay(txs, txs', nodes[order[i]].txIds);
    }
    FoldReadsOrder(rules, EMPTY_BOOKS, order, one, two);
  }

  lemma SettledSlots(
    rules: Rules, g: Graph, nodes: map<Hash, Stores.NodeData>, txs: map<Hash, Transaction>, books: Books,
    frontier: Hash, checks: EmissionChecks)
    requires Settled(rules, g, nodes, txs, books, frontier, checks)
    ensures books.applied == |g.Order(frontier)|
  {
    hide ApplyAll, Graph.Order;
    FoldCountsSlots(rules, EMPTY_BOOKS, g.Order(frontier), Fetch(nodes, txs));
  }

  /** Only the genesis, at position zero, has height zero. */
  lemma HeightsAlong(g: Graph, b: Hash, i: nat)
    requires g.Valid() && b in g.headers && i < |g.Order(b)|
    ensures g.headers[g.Order(b)[i]].height == 0 <==> i == 0
  {
    hide Graph.Order;
    OrderListsView(g, b);
    GenesisIsFirst(g, b);
    var x := g.Order(b)[i];
    if i > 0 {
      assert x != g.genesis;
      assert g.headers[x].parents[0] in g.headers[x].parents;
    }
  }

  /** The lookup that decides between extending and rebuilding. */
  predicate ExtendsFrontier(order: seq<Hash>, applied: nat, frontier: Hash)
    requires applied >= 1
  {
    |order| >= applied && order[applied - 1] == frontier
  }

  /** It holds exactly when the frontier is on the selected-parent chain of the tip the order belongs to. */
  lemma LookupDecides(g: Graph, tip: Hash, frontier: Hash)
    requires g.Valid() && tip in g.headers && frontier in g.headers
    ensures |g.Order(frontier)| >= 1
    ensures ExtendsFrontier(g.Order(tip), |g.Order(frontier)|, frontier) <==> g.OnChain(frontier, tip)
    ensures g.OnChain(frontier, tip) ==> g.Order(frontier) <= g.Order(tip)
  {
    hide Graph.Order, Graph.OnChain;
    LookupIsExact(g, tip, frontier);
    if g.OnChain(frontier, tip) {
      OrderIsAppendOnly(g, frontier, tip);
    }
  }

  /** The lookup is exact for every tip of a graph exactly when the ledger applied the whole order of the frontier. */
  lemma LookupIsSoundExactly(g: Graph, frontier: Hash, applied: nat)
    requires g.Valid() && frontier in g.headers && applied >= 1
    ensures (forall tip | tip in g.headers ::
               ExtendsFrontier(g.Order(tip), applied, frontier) <==> g.OnChain(frontier, tip)) <==>
            applied == |g.Order(frontier)|
  {
    hide Graph.Order;
    LookupDecides(g, frontier, frontier);
    if applied == |g.Order(frontier)| {
      forall tip | tip in g.headers
        ensures ExtendsFrontier(g.Order(tip), applied, frontier) <==> g.OnChain(frontier, tip)
      {
        LookupDecides(g, tip, frontier);
      }
    } else {
      OrderListsView(g, frontier);
      TipIsLast(g, frontier);
      assert g.OnChain(frontier, frontier);
      assert !ExtendsFrontier(g.Order(frontier), applied, frontier);
    }
  }

  // ----- what a synchronisation does

  datatype Sync = Sync(books: Books, frontier: Hash, refusal: Option<StateError>)

  /**
   What bringing a ledger to a best order does, in any state: on a hit the suffix is applied up to the first
   refusal; on a miss a fresh ledger replaces the old one, unless it is refused on the way.
   */
  ghost function SyncOf(
    rules: Rules, books: Books, frontier: Hash, order: seq<Hash>, fetch: Hash -> Option<Payload>): Sync
    requires books.applied >= 1 && order != []
  {
    if ExtendsFrontier(order, books.applied, frontier) then
      var end := ApplyAll(rules, books, order[books.applied..], fetch);
      FoldPrefix(rules, books, order[books.applied..], fetch);
      Sync(end.books, order[end.books.applied - 1], end.refusal)
    else
      var end := ApplyAll(rules, EMPTY_BOOKS, order, fetch);
      if end.refusal.Some? then Sync(books, frontier, end.refusal) else Sync(end.books, order[|order| - 1], None)
  }

  /** From an exact ledger, extending and rebuilding give one verdict: that of a fresh fold over the best order. */
  lemma SyncDecides(rules: Rules, g: Graph, tip: Hash, fetch: Hash -> Option<Payload>, books: Books, frontier: Hash)
    requires g.Valid() && tip in g.headers && frontier in g.headers
    requires ApplyAll(rules, EMPTY_BOOKS, g.Order(frontier), fetch) == Outcome(books, None)
    ensures books.applied == |g.Order(frontier)| >= 1 && |g.Order(tip)| >= 1
    ensures var s := SyncOf(rules, books, frontier, g.Order(tip), fetch);
            var whole := ApplyAll(rules, EMPTY_BOOKS, g.Order(tip), fetch);
            && s.refusal == whole.refusal
            && (s.refusal.None? ==> s.books == whole.books && s.frontier == tip)
  {
    hide Graph.Order, Graph.OnChain, ApplyAll;
    var order := g.Order(tip);
    FoldCountsSlots(rules, EMPTY_BOOKS, g.Order(frontier), fetch);
    LookupDecides(g, tip, frontier);
    TipIsLast(g, tip);
    if ExtendsFrontier(order, books.applied, frontier) {
      var suffix := order[books.applied..];
      assert order == g.Order(frontier) + suffix;
      FoldSplit(rules, EMPTY_BOOKS, g.Order(frontier), suffix, fetch);
      FoldPrefix(rules, books, suffix, fetch);
    }
  }

  /**
   After a refusal the ledger is still exact precisely when it applied as many slots as the order of its frontier
   has: always after a rebuild, and after an extension only when that stopped on the selected chain.
   */
  lemma RefusedSyncStands(
    rules: Rules, g: Graph, tip: Hash, fetch: Hash -> Option<Payload>, books: Books, frontier: Hash)
    requires g.Valid() && tip in g.headers && frontier in g.headers
    requires ApplyAll(rules, EMPTY_BOOKS, g.Order(frontier), fetch) == Outcome(books, None)
    requires books.applied >= 1 && g.Order(tip) != []
    ensures var s := SyncOf(rules, books, frontier, g.Order(tip), fetch);
            && s.frontier in g.headers
            && (ApplyAll(rules, EMPTY_BOOKS, g.Order(s.frontier), fetch) == Outcome(s.books, None) <==>
                s.books.applied == |g.Order(s.frontier)|)
  {
    hide Graph.Order, Graph.OnChain, ApplyAll;
    var order, s := g.Order(tip), SyncOf(rules, books, frontier, g.Order(tip), fetch);
    SyncDecides(rules, g, tip, fetch, books, frontier);
    LookupDecides(g, tip, frontier);
    TipIsLast(g, tip);
    if ExtendsFrontier(order, books.applied, frontier) {
      var suffix := order[books.applied..];
      FoldPrefix(rules, books, suffix, fetch);
      var k := s.books.applied;
      assert order[..k] == g.Order(frontier) + suffix[..k - books.applied];
      FoldSplit(rules, EMPTY_BOOKS, g.Order(frontier), suffix[..k - books.applied], fetch);
      if k == |g.Order(s.frontier)| {
        LookupDecides(g, tip, s.frontier);
        assert g.Order(s.frontier) == order[..k];
      }
    } else if s.refusal.None? {
      FoldCountsSlots(rules, EMPTY_BOOKS, order, fetch);
    }
    if ApplyAll(rules, EMPTY_BOOKS, g.Order(s.frontier), fetch) == Outcome(s.books, None) {
      FoldCountsSlots(rules, EMPTY_BOOKS, g.Order(s.frontier), fetch);
    }
  }

  /** The ids behind the books once a synchronisation is over, given those behind them before. */
  ghost function Behind(
    rules: Rules, ids: seq<Hash>, books: Books, frontier: Hash, order: seq<Hash>, fetch: Hash -> Option<Payload>)
    : seq<Hash>
    requires books.applied >= 1 && order != []
  {
    var s := SyncOf(rules, books, frontier, order, fetch);
    if ExtendsFrontier(order, books.applied, frontier) then
      FoldPrefix(rules, books, order[books.applied..], fetch);
      ids + order[books.applied..s.books.applied]
    else if s.refusal.Some? then ids
    else order
  }

  /**
   In every run, refusals included, the ledger is a fresh one folded over some ids, the frontier last: whatever the
   state, a synchronisation carries the fold over to the ids it leaves behind the books.
   */
  lemma SyncKeepsFold(
    rules: Rules, ids: seq<Hash>, books: Books, frontier: Hash, order: seq<Hash>, fetch: Hash -> Option<Payload>)
    requires books.applied >= 1 && order != [] && ids != [] && ids[|ids| - 1] == frontier
    requires ApplyAll(rules, EMPTY_BOOKS, ids, fetch) == Outcome(books, None)
    ensures var s := SyncOf(rules, books, frontier, order, fetch);
            var after := Behind(rules, ids, books, frontier, order, fetch);
            && ApplyAll(rules, EMPTY_BOOKS, after, fetch) == Outcome(s.books, None)
            && after != [] && after[|after| - 1] == s.frontier
  {
    hide ApplyAll;
    if ExtendsFrontier(order, books.applied, frontier) {
      SyncExtends(rules, books, frontier, order, fetch);
      var k := SyncOf(rules, books, frontier, order, fetch).books.applied;
      var suffix := order[books.applied..];
      FoldPrefix(rules, books, suffix, fetch);
      assert suffix[..k - books.applied] == order[books.applied..k];
      FoldSplit(rules, EMPTY_BOOKS, ids, order[books.applied..k], fetch);
    } else {
      SyncRebuilds(rules, books, frontier, order, fetch);
    }
  }

  /**
   What a success is worth in any state. After a miss the ledger is the fresh fold over the order. After a hit it is
   exactly when the part of the order the engine took as applied, folded afresh, is carried by the suffix to the same
   books; so it is whenever the ids behind the books are that part.
   */
  lemma SuccessIsFreshFold(
    rules: Rules, ids: seq<Hash>, books: Books, frontier: Hash, order: seq<Hash>, fetch: Hash -> Option<Payload>)
    requires books.applied >= 1 && order != []
    requires ApplyAll(rules, EMPTY_BOOKS, ids, fetch) == Outcome(books, None)
    requires SyncOf(rules, books, frontier, order, fetch).refusal.None?
    ensures books.applied == |ids|
    ensures var s := SyncOf(rules, books, frontier, order, fetch);
            var isFresh := ApplyAll(rules, EMPTY_BOOKS, order, fetch) == Outcome(s.books, None);
            if !ExtendsFrontier(order, |ids|, frontier) then isFresh
            else
              var taken := ApplyAll(rules, EMPTY_BOOKS, order[..|ids|], fetch);
              && (isFresh <==>
                    taken.refusal.None? && ApplyAll(rules, taken.books, order[|ids|..], fetch) ==
                                           ApplyAll(rules, books, order[|ids|..], fetch))
              && (ids == order[..|ids|] ==> isFresh)
  {
    hide ApplyAll;
    FoldCountsSlots(rules, EMPTY_BOOKS, ids, fetch);
    var n := |ids|;
    if ExtendsFrontier(order, n, frontier) {
      SyncExtends(rules, books, frontier, order, fetch);
      assert order == order[..n] + order[n..];
      FoldSplit(rules, EMPTY_BOOKS, order[..n], order[n..], fetch);
    } else {
      SyncRebuilds(rules, books, frontier, order, fetch);
    }
  }

  // ----- the engine itself

  class Engine {
    const rules: Rules
    const digests: Digests
    const policy: Policy
    const store: Stores.Store
    var txs: map<Hash, Transaction>
    var ledger: Ledgers.Ledger
    var frontier: Hash
    var checks: EmissionChecks
    var rebuilds: nat

    /** What every engine keeps, even after a refusal: a valid store, and a ledger past its genesis. */
    ghost predicate Running()
      reads this, store, store.reference, ledger
    {
      store.Valid() && 1 <= ledger.applied <= LAST_SLOT + 1
    }

    /** The payloads of the best order after the genesis, as far as a fresh ledger accepts them. */
    ghost function AppliedHistory(): seq<Payload>
      reads this, store
    {
      if store.order == [] then [] else
        Supply.Accepted(rules, Supply.GENESIS_BOOKS, store.order[1..], Fetch(store.nodes, txs))
    }

    /** The ledger is that of some held block, not necessarily the best tip. */
    ghost predicate Standing()
      reads this, store, store.reference, ledger
    {
      && Running()
      && Settled(rules, store.View(), store.nodes, txs, ledger.Value(), frontier, checks)
    }

    /** The ledger is that of the best tip. */
    ghost predicate Synced()
      reads this, store, store.reference, ledger
    {
      Standing() && frontier == store.orderTip
    }

    constructor Open(rules: Rules, digests: Digests, policy: Policy, store: Stores.Store, ledger: Ledgers.Ledger)
      ensures this.rules == rules && this.digests == digests && this.policy == policy && this.store == store
      ensures this.ledger == ledger && txs == map[] && frontier == store.genesis
      ensures checks == EmissionChecks(0, 0) && rebuilds == 0
    {
      this.rules, this.digests, this.policy, this.store := rules, digests, policy, store;
      this.ledger, txs, frontier := ledger, map[], store.genesis;
      checks, rebuilds := EmissionChecks(0, 0), 0;
    }

    /** Boots on a genesis with an empty payload: the store opens, and the ledger applies the genesis. */
    static method Boot(rules: Rules, digests: Digests, policy: Policy, genesis: Block)
      returns (r: Result<Engine, Stores.NodeError>)
      requires genesis.txIds == []
      ensures r.Failure? <==> GenesisRefusal(digests, genesis).Some?
      ensures var h := genesis.header;
              r.Success? <==> h.parents == [0] && h.height == 0 && h.payloadRoot == digests.payloadRoot([])
      ensures r.Success? ==>
                && fresh(r.value) && fresh(r.value.store) && fresh(r.value.ledger)
                && (r.value.store.reference != null ==> fresh(r.value.store.reference))
                && r.value.rules == rules && r.value.digests == digests && r.value.policy == policy
                && r.value.store.View() == Stores.Root(genesis) && r.value.txs == map[]
                && genesis.id in r.value.store.nodes && r.value.store.nodes[genesis.id].txIds == genesis.txIds
                && r.value.ledger.Value() == Supply.GENESIS_BOOKS && r.value.frontier == genesis.id
                && r.value.Synced()
    {
      hide *;
      var started := Stores.Store.New(digests, genesis);
      if started.Failure? {
        return Failure(started.error);
      }
      var ledger := new Ledgers.Ledger();
      GenesisApplies(rules, ledger.Value());
      var refusal := ledger.ApplyBlock(rules, 0, []);
      var engine := new Engine.Open(rules, digests, policy, started.value, ledger);
      OpenableGenesis(digests, genesis);
      Stores.SoloParts(engine.store, genesis);
      Stores.RootIsSolo(genesis);
      Stores.Parts(engine.store);
      BootIsSynced(engine, genesis);
      r := Success(engine);
    }

    /** The payload of a held block, in payload order. */
    method PayloadOf(id: Hash) returns (payload: Option<Payload>)
      ensures payload == PayloadIn(store.nodes, txs, id)
      ensures payload.Some? <==> id in store.nodes && forall t | t in store.nodes[id].txIds :: t in txs
      ensures payload.Some? ==>
                var ids := store.nodes[id].txIds;
                && payload.value.height == store.nodes[id].header.height && |payload.value.txs| == |ids|
                && forall i | 0 <= i < |ids| :: payload.value.txs[i] == txs[ids[i]]
    {
      FetchExactly(store.nodes, txs, id);
      if id !in store.nodes {
        return None;
      }
      var ids := store.nodes[id].txIds;
      var bodies: seq<Transaction> := [];
      assert ids[0..] == ids;
      assert BodiesOf(txs, ids).Some? ==> bodies + BodiesOf(txs, ids).value == BodiesOf(txs, ids).value;
      for i := 0 to |ids|
        invariant BodiesOf(txs, ids) ==
                  var rest := BodiesOf(txs, ids[i..]); if rest.None? then None else Some(bodies + rest.value)
      {
        Tail(ids, i);
        if ids[i] !in txs {
          return None;
        }
        ghost var rest := BodiesOf(txs, ids[i + 1..]);
        if rest.Some? {
          assert bodies + ([txs[ids[i]]] + rest.value) == (bodies + [txs[ids[i]]]) + rest.value;
        }
        bodies := bodies + [txs[ids[i]]];
      }
      assert bodies + [] == bodies;
      payload := Some(Payload(store.nodes[id].header.height, bodies));
    }

    /** Applies one payload to a ledger and folds its slot into the checks; a refusal changes nothing. */
    method ApplyPayload(target: Ledgers.Ledger, id: Hash, payload: Option<Payload>)
      returns (refusal: Option<StateError>)
      requires target.applied <= LAST_SLOT + 1
      requires payload.Some? && payload.value.height == 0 ==> target.applied == 0
      modifies target, this`checks
      ensures payload.None? ==> refusal == Some(MissingPayload(id))
      ensures payload.Some? ==>
                var next := Apply(rules, old(target.Value()), payload.value.height, payload.value.txs);
                refusal == if next.Success? then None else Some(next.error)
      ensures refusal.None? ==>
                && Apply(rules, old(target.Value()), payload.value.height, payload.value.txs) == Success(target.Value())
                && target.applied == old(target.applied) + 1 <= LAST_SLOT + 1
                && checks == SlotApplied(old(checks), old(target.applied))
      ensures refusal.Some? ==> target.Value() == old(target.Value()) && checks == old(checks)
    {
      hide Apply, SlotApplied;
      if payload.None? {
        return Some(MissingPayload(id));
      }
      var slot := target.applied;
      ghost var before := target.Value();
      refusal := target.ApplyBlock(rules, payload.value.height, payload.value.txs);
      if refusal.None? {
        Supply.BlockCounts(rules, before, payload.value.height, payload.value.txs);
        checks := SlotApplied(checks, slot);
      }
    }

    /** Applies the suffix the best order adds over the frontier, up to the first payload the ledger refuses. */
    method ExtendLedger() returns (refusal: Option<StateError>)
      requires Running() && ExtendsFrontier(store.order, ledger.applied, frontier)
      modifies this`checks, this`frontier, ledger
      ensures Running()
      ensures Outcome(ledger.Value(), refusal) ==
              ApplyAll(rules, old(ledger.Value()), store.order[old(ledger.applied)..], Fetch(store.nodes, txs))
      ensures old(ledger.applied) <= ledger.applied <= |store.order| && frontier == store.order[ledger.applied - 1]
      ensures checks == ChecksRun(old(checks), old(ledger.applied), ledger.applied)
    {
      hide *;
      var order, start := store.order, ledger.applied;
      ghost var fetch := Fetch(store.nodes, txs);
      RunningParts(this);
      LookupInside(order, start, frontier);
      NoChecks(checks, start);
      for i := start to |order|
        invariant store.Valid() && ledger.applied == i <= LAST_SLOT + 1 && order[i - 1] == frontier
        invariant ApplyAll(rules, ledger.Value(), order[i..], fetch) ==
                  ApplyAll(rules, old(ledger.Value()), order[start..], fetch)
        invariant checks == ChecksRun(old(checks), start, i)
      {
        var id := order[i];
        var payload := PayloadOf(id);
        FetchAt(store, txs, i);
        FoldAt(rules, ledger.Value(), order, i, fetch);
        LedgerSlots(ledger);
        refusal := ApplyPayload(ledger, id, payload);
        LedgerSlots(ledger);
        if refusal.Some? {
          RunningWhole(this);
          return;
        }
        MoreChecks(old(checks), start, i + 1);
        frontier := id;
      }
      NothingLeft(rules, ledger.Value(), order, fetch);
      RunningWhole(this);
      refusal := None;
    }

    /** The payloads of an order, missing ones included. */
    method PayloadsOf(order: seq<Hash>) returns (payloads: seq<Option<Payload>>)
      ensures |payloads| == |order|
      ensures forall i | 0 <= i < |order| :: payloads[i] == PayloadIn(store.nodes, txs, order[i])
    {
      hide *;
      payloads := [];
      for i := 0 to |order|
        invariant |payloads| == i
        invariant forall j | 0 <= j < i :: payloads[j] == PayloadIn(store.nodes, txs, order[j])
      {
        var payload := PayloadOf(order[i]);
        payloads := payloads + [payload];
      }
    }

    /** The total rebuild: a fresh ledger over the consensus order of the best tip, kept unless it is refused. */
    method RebuildLedger(best: Hash) returns (refusal: Option<StateError>)
      requires Running() && best == store.orderTip
      modifies this`checks, this`frontier, this`ledger, this`rebuilds
      ensures Running()
      ensures var whole := ApplyAll(rules, EMPTY_BOOKS, store.order, Fetch(store.nodes, txs));
              && refusal == whole.refusal
              && (refusal.None? ==> ledger.Value() == whole.books && fresh(ledger) && frontier == best)
              && whole.books.applied <= LAST_SLOT + 1 && checks == ChecksAfter(whole.books.applied)
      ensures rebuilds == old(rebuilds) + if refusal.None? then 1 else 0
      ensures refusal.Some? ==>
                ledger == old(ledger) && ledger.Value() == old(ledger.Value()) && frontier == old(frontier)
    {
      hide *;
      RunningParts(this);
      BestIsSound(store);
      var listed := store.ConsensusOrder(best);
      BestOrder(store);
      var order := listed.value;
      var payloads := PayloadsOf(order);
      var target := new Ledgers.Ledger();
      checks := EmissionChecks(0, 0);
      ghost var fetch := Fetch(store.nodes, txs);
      FreshStarts(target, order);
      for i := 0 to |order|
        invariant fresh(target) && target.applied == i <= LAST_SLOT + 1 && checks == ChecksAfter(i)
        invariant ApplyAll(rules, target.Value(), order[i..], fetch) == ApplyAll(rules, EMPTY_BOOKS, order, fetch)
        invariant store.Valid() && ledger == old(ledger) && frontier == old(frontier) && rebuilds == old(rebuilds)
      {
        FetchAt(store, txs, i);
        FoldAt(rules, target.Value(), order, i, fetch);
        LedgerSlots(target);
        refusal := ApplyPayload(target, order[i], payloads[i]);
        LedgerSlots(target);
        if refusal.Some? {
          RunningWhole(this);
          return;
        }
        NextChecks(i + 1);
      }
      NothingLeft(rules, target.Value(), order, fetch);
      LedgerSlots(target);
      rebuilds := rebuilds + 1;
      ledger := target;
      frontier := best;
      RunningWhole(this);
      refusal := None;
    }

    /** Extends the ledger by the suffix the best order adds, or rebuilds it, after an insertion. */
    method SyncLedger() returns (refusal: Option<StateError>)
      requires Running()
      modifies this`checks, this`frontier, this`ledger, this`rebuilds, ledger
      ensures Running() && store.order != [] && (ledger == old(ledger) || fresh(ledger))
      ensures var s := SyncOf(rules, old(ledger.Value()), old(frontier), store.order, Fetch(store.nodes, txs));
              ledger.Value() == s.books && frontier == s.frontier && refusal == s.refusal
      ensures rebuilds == old(rebuilds) +
              if refusal.Some? || ExtendsFrontier(store.order, old(ledger.applied), old(frontier)) then 0 else 1
      ensures old(Standing()) ==>
                && refusal == ApplyAll(rules, EMPTY_BOOKS, store.order, Fetch(store.nodes, txs)).refusal
                && (refusal.None? ==> Synced())
                && (ExtendsFrontier(store.order, old(ledger.applied), old(frontier)) <==>
                    store.View().OnChain(old(frontier), store.orderTip))
    {
      hide *;
      ghost var standing, books := Standing(), ledger.Value();
      RunningParts(this);
      BestIsSound(store);
      BestOrder(store);
      if standing {
        BranchTaken(this);
        StandingVerdict(this);
        StandingChecks(this);
      }
      var best := store.GetBestTip();
      if |store.order| >= ledger.applied && store.order[ledger.applied - 1] == frontier {
        LookupHits(store.order, ledger.applied, frontier);
        SyncExtends(rules, books, frontier, store.order, Fetch(store.nodes, txs));
        refusal := ExtendLedger();
        RunningParts(this);
        if standing {
          ChecksJoin(books.applied, ledger.applied);
        }
      } else {
        LookupMisses(store.order, ledger.applied, frontier);
        SyncRebuilds(rules, books, frontier, store.order, Fetch(store.nodes, txs));
        refusal := RebuildLedger(best);
        RunningParts(this);
      }
      if standing && refusal.None? {
        ReachesTip(this);
      }
    }

    /**
     The per-block battery of a synced engine: slots and emission always pass, and conservation exactly as long as the
     applied history created no more than a u64 counts, in a build with overflow checks, where the addition then
     panics, and in one without; the tip shape and the claims of the mempool are reported as they are.
     */
    method CheckAccounting(overflowChecks: bool, strictSingleTip: bool, claimed: set<OutputRef>)
      returns (conservation: bool, slotAlignment: bool, emissionAccounting: bool, tipShape: bool, mempoolHygiene: bool)
      requires Synced()
      ensures slotAlignment && emissionAccounting
      ensures conservation <==> Supply.Total(AppliedHistory()) <= U64_MAX
      ensures tipShape <==> (strictSingleTip ==> store.View().Valid() && store.View().Tips() == {store.orderTip})
      ensures mempoolHygiene <==> claimed !! ledger.spent
    {
      hide *;
      ghost var blocks := SyncedLedgerIsFold(this);
      LedgerFields(ledger);
      Supply.CreatedIsSpentPlusEmitted(rules, blocks);
      Supply.WrappedSumNeverMatches(rules, blocks);
      BestIsSound(store);
      BestOrder(store);
      Stores.Parts(store);
      OrderLengthOf(store);
      var refusal := ledger.CheckConservation(overflowChecks);
      conservation := refusal.None?;
      var best := store.GetBestTip();
      slotAlignment :=
        ledger.applied == store.nodes[best].orderLen && frontier == best && |store.order| == ledger.applied;
      emissionAccounting := ledger.emitted == checks.expectedEmitted;
      TipCount(store);
      tipShape := !strictSingleTip || |store.tips| == 1;
      mempoolHygiene := true;
      var rest := claimed;
      while rest != {} && mempoolHygiene
        invariant rest <= claimed && (mempoolHygiene ==> claimed - rest !! ledger.spent)
        invariant !mempoolHygiene ==> !(claimed !! ledger.spent)
        decreases |rest|
      {
        var reference :| reference in rest;
        if reference in ledger.spent {
          mempoolHygiene := false;
        }
        rest := rest - {reference};
      }
    }

    /**
     The periodic check of the treasury: the balance of its address against the recomputed shares. On a synced engine
     it passes exactly when the applied history took from that address what it paid to it beside the shares.
     */
    method CheckTreasury() returns (agrees: bool)
      requires Synced()
      ensures agrees <==> Treasuries.TakenOver(rules, Supply.GENESIS_BOOKS, AppliedHistory(), rules.treasury) ==
                          Treasuries.DonatedOver(rules, Supply.GENESIS_BOOKS, AppliedHistory())
    {
      hide *;
      var utxos, owner := ledger.utxos, rules.treasury;
      ghost var blocks := SyncedHistory(this);
      TreasuryBalance(this, blocks);
      var balance: u64 := 0;
      var rest := utxos.Keys;
      assert utxos - (utxos.Keys - rest) == utxos;
      while rest != {}
        invariant rest <= utxos.Keys && balance + Treasuries.Held(utxos - (utxos.Keys - rest), owner) ==
                                        Treasuries.Held(utxos, owner)
        decreases |rest|
      {
        var r :| r in rest;
        Treasuries.HeldStep(utxos, rest, r, owner);
        if utxos[r].address == owner {
          NotSaturated(balance, utxos[r].amount, Treasuries.Held(utxos, owner));
          balance := SaturatingAdd(balance, utxos[r].amount);
        }
        rest := rest - {r};
      }
      Treasuries.HeldNone(utxos, owner);
      agrees := balance == checks.expectedTreasury;
    }

    /** Remembers a transaction body; a synced engine stays synced unless another body stood under the id. */
    method RegisterPayload(transaction: Transaction)
      modifies this`txs
      ensures txs == old(txs)[rules.txId(transaction) := transaction]
      ensures old(Running()) ==> Running()
      ensures var id := rules.txId(transaction);
              old(Synced()) && (id in old(txs) ==> old(txs)[id] == transaction) ==> Synced()
    {
      hide *;
      ghost var before, running, synced := txs, Running(), Synced();
      ghost var known := rules.txId(transaction) in txs ==> txs[rules.txId(transaction)] == transaction;
      if synced {
        StandingWhenSynced(this);
        StandingParts(this);
      }
      if running {
        RunningParts(this);
      }
      txs := txs[rules.txId(transaction) := transaction];
      if running {
        RunningWhole(this);
      }
      if synced && known {
        BodiesRegistered(this, before);
      }
    }

    /**
     Inserts a block and brings the ledger to the new best tip. A block the store refuses changes nothing; otherwise
     the ledger does what `SyncOf` says, from any state. From an exact ledger the insertion succeeds exactly when a
     fresh ledger accepts the whole new best order, and otherwise reports what that one refuses.
     */
    method InsertBlock(block: Block) returns (r: Result<Hash, Breach>)
      requires Running() && |block.header.parents| > 0
      modifies this`checks, this`frontier, this`ledger, this`rebuilds, ledger, store, store.reference
      ensures ledger == old(ledger) || fresh(ledger)
      ensures store.reference == old(store.reference) || store.reference == null
      ensures if r.Failure? && r.error.Store? then store.nodes == old(store.nodes)
              else Stores.Recorded(old(store.nodes), store.nodes, block)
      ensures Running()
      ensures var outcome := Stores.StoreOutcome(old(store.View()), digests, block, policy, block.header.timestamp);
              if outcome.Failure? then
                && r == Failure(Store(outcome.error)) && store.View() == old(store.View())
                && ledger.Value() == old(ledger.Value()) && frontier == old(frontier) && (old(Synced()) ==> Synced())
              else
                && store.View() == Grown(old(store.View()), block.id, block.header) && store.order != []
                && var s := SyncOf(rules, old(ledger.Value()), old(frontier), store.order, Fetch(store.nodes, txs));
                   && ledger.Value() == s.books && frontier == s.frontier
                   && r == if s.refusal.Some? then Failure(Ledger(s.refusal.value)) else Success(block.id)
      ensures old(Standing()) && (r.Success? || r.error.Ledger?) ==>
                var whole := ApplyAll(rules, EMPTY_BOOKS, store.order, Fetch(store.nodes, txs));
                && (r.Success? ==> Synced())
                && r == if whole.refusal.Some? then Failure(Ledger(whole.refusal.value)) else Success(block.id)
    {
      hide *;
      ghost var g, nodes, standing := store.View(), store.nodes, Standing();
      RunningParts(this);
      Stores.Parts(store);
      if standing {
        StandingParts(this);
      }
      AcceptedGrows(g, digests, block, policy, block.header.timestamp);
      var inserted := store.Insert(digests, block, policy, block.header.timestamp);
      if inserted.Failure? {
        return Failure(Store(inserted.error));
      }
      RunningWhole(this);
      if standing {
        StandsAfterInsert(this, g, nodes, block);
      }
      var refusal := SyncLedger();
      r := if refusal.Some? then Failure(Ledger(refusal.value)) else Success(inserted.value);
    }
  }

  lemma RunningParts(e: Engine)
    requires e.Running()
    ensures e.store.Valid() && 1 <= e.ledger.applied <= LAST_SLOT + 1 && e.ledger.Value().applied == e.ledger.applied
  {
  }

  lemma RunningWhole(e: Engine)
    requires e.store.Valid() && 1 <= e.ledger.applied <= LAST_SLOT + 1
    ensures e.Running()
  {
  }

  lemma StandingParts(e: Engine)
    requires e.Standing()
    ensures e.store.Valid() && e.store.View().Valid()
    ensures Settled(e.rules, e.store.View(), e.store.nodes, e.txs, e.ledger.Value(), e.frontier, e.checks)
  {
    hide Settled, ApplyAll;
    Stores.Parts(e.store);
  }

  lemma SettledParts(
    rules: Rules, g: Graph, nodes: map<Hash, Stores.NodeData>, txs: map<Hash, Transaction>, books: Books,
    frontier: Hash, checks: EmissionChecks)
    requires Settled(rules, g, nodes, txs, books, frontier, checks)
    ensures g.Valid() && frontier in g.headers && 1 <= books.applied <= LAST_SLOT + 1
    ensures checks == ChecksAfter(books.applied)
    ensures ApplyAll(rules, EMPTY_BOOKS, g.Order(frontier), Fetch(nodes, txs)) == Outcome(books, None)
  {
  }

  lemma LookupInside(order: seq<Hash>, applied: nat, frontier: Hash)
    requires applied >= 1 && ExtendsFrontier(order, applied, frontier)
    ensures applied <= |order| && order[applied - 1] == frontier
  {
  }

  lemma LedgerSlots(ledger: Ledgers.Ledger)
    ensures ledger.Value().applied == ledger.applied
  {
  }

  lemma LedgerFields(ledger: Ledgers.Ledger)
    ensures var books := ledger.Value();
            books.created == ledger.created && books.spentValue == ledger.spentValue && books.emitted == ledger.emitted
  {
  }

  lemma OrderLengthOf(store: Stores.Store)
    requires store.Valid()
    ensures store.orderTip in store.nodes && store.nodes[store.orderTip].orderLen == |store.order|
  {
    Stores.Parts(store);
    Stores.KeptParts(store.View(), store.nodes, store.tips, store.orderTip);
  }

  lemma BestIsHeld(store: Stores.Store)
    requires store.Valid()
    ensures store.View().Valid() && store.orderTip in store.View().headers
  {
    Stores.Parts(store);
  }

  /** The payload at a position of the best order. */
  lemma FetchAt(store: Stores.Store, txs: map<Hash, Transaction>, i: nat)
    requires store.Valid() && i < |store.order|
    ensures Fetch(store.nodes, txs)(store.order[i]) == PayloadIn(store.nodes, txs, store.order[i])
    ensures var payload := PayloadIn(store.nodes, txs, store.order[i]);
            payload.Some? && payload.value.height == 0 ==> i == 0
  {
    hide Graph.Order, Stores.Materializes;
    var g := store.View();
    Stores.Parts(store);
    HeightsAlong(g, store.orderTip, i);
  }

  lemma ReachesTip(e: Engine)
    requires e.store.Valid() && |e.store.order| >= 1 && e.frontier == e.store.order[|e.store.order| - 1]
    requires ApplyAll(e.rules, EMPTY_BOOKS, e.store.order, Fetch(e.store.nodes, e.txs)) ==
             Outcome(e.ledger.Value(), None)
    requires 1 <= e.ledger.applied <= LAST_SLOT + 1 && e.checks == ChecksAfter(e.ledger.applied)
    ensures e.Synced()
  {
    hide *;
    var g, books := e.store.View(), e.ledger.Value();
    Stores.Parts(e.store);
    BestIsHeld(e.store);
    LedgerSlots(e.ledger);
    TipIsLast(g, e.store.orderTip);
    SettledWhole(e.rules, g, e.store.nodes, e.txs, books, e.store.orderTip, e.checks);
    SyncedWhole(e);
  }

  lemma SettledWhole(
    rules: Rules, g: Graph, nodes: map<Hash, Stores.NodeData>, txs: map<Hash, Transaction>, books: Books,
    frontier: Hash, checks: EmissionChecks)
    requires g.Valid() && frontier in g.headers && 1 <= books.applied <= LAST_SLOT + 1
    requires checks == ChecksAfter(books.applied)
    requires ApplyAll(rules, EMPTY_BOOKS, g.Order(frontier), Fetch(nodes, txs)) == Outcome(books, None)
    ensures Settled(rules, g, nodes, txs, books, frontier, checks)
  {
  }

  lemma SyncedWhole(e: Engine)
    requires e.store.Valid() && e.frontier == e.store.orderTip
    requires Settled(e.rules, e.store.View(), e.store.nodes, e.txs, e.ledger.Value(), e.frontier, e.checks)
    ensures e.Synced() && e.Standing()
  {
  }

  lemma GenesisApplies(rules: Rules, books: Books)
    requires books == EMPTY_BOOKS
    ensures Apply(rules, books, 0, []) == Success(Supply.GENESIS_BOOKS)
  {
    hide Commit;
    Overlays.EmptyCommit(rules, EMPTY_BOOKS);
  }

  lemma OpenableGenesis(digests: Digests, genesis: Block)
    requires GenesisRefusal(digests, genesis).None?
    ensures genesis.header.height == 0
  {
  }

  lemma BootIsSynced(e: Engine, genesis: Block)
    requires e.store.Valid() && genesis.txIds == [] && genesis.header.height == 0
    requires e.store.View() == Stores.Root(genesis)
    requires genesis.id in e.store.nodes && e.store.nodes[genesis.id].txIds == genesis.txIds
    requires e.ledger.Value() == Supply.GENESIS_BOOKS && e.frontier == genesis.id && e.checks == EmissionChecks(0, 0)
    ensures e.Synced()
  {
    hide *;
    var g := e.store.View();
    Stores.RootIsSolo(genesis);
    Stores.Parts(e.store);
    BestIsHeld(e.store);
    BootFold(e.rules, e.store, genesis, e.txs);
    SoloSettled(e.rules, g, e.store.nodes, e.txs, genesis.id);
    SyncedWhole(e);
  }

  lemma BootFold(rules: Rules, store: Stores.Store, genesis: Block, txs: map<Hash, Transaction>)
    requires store.Valid() && genesis.txIds == [] && genesis.header.height == 0
    requires store.View() == Stores.Root(genesis)
    requires genesis.id in store.nodes && store.nodes[genesis.id].txIds == genesis.txIds
    ensures ApplyAll(rules, EMPTY_BOOKS, [genesis.id], Fetch(store.nodes, txs)) == Outcome(Supply.GENESIS_BOOKS, None)
  {
    hide *;
    Stores.Parts(store);
    SoloPayload(store.View(), store.nodes, genesis, txs);
    GenesisApplies(rules, EMPTY_BOOKS);
    SoloFold(rules, genesis.id, Fetch(store.nodes, txs));
  }

  lemma SoloPayload(g: Graph, nodes: map<Hash, Stores.NodeData>, genesis: Block, txs: map<Hash, Transaction>)
    requires g.headers == Stores.Headers(nodes) && g == Stores.Root(genesis)
    requires genesis.txIds == [] && genesis.header.height == 0
    requires genesis.id in nodes && nodes[genesis.id].txIds == genesis.txIds
    ensures Fetch(nodes, txs)(genesis.id) == Some(Payload(0, []))
  {
    assert nodes[genesis.id].header == g.headers[genesis.id];
  }

  lemma SoloFold(rules: Rules, id: Hash, fetch: Hash -> Option<Payload>)
    requires fetch(id) == Some(Payload(0, []))
    requires Apply(rules, EMPTY_BOOKS, 0, []) == Success(Supply.GENESIS_BOOKS)
    ensures ApplyAll(rules, EMPTY_BOOKS, [id], fetch) == Outcome(Supply.GENESIS_BOOKS, None)
  {
    hide Apply;
    assert [id][0] == id && [id][1..] == [];
  }

  lemma SoloSettled(
    rules: Rules, g: Graph, nodes: map<Hash, Stores.NodeData>, txs: map<Hash, Transaction>, id: Hash)
    requires g.Valid() && id in g.headers && g.Order(id) == [id]
    requires ApplyAll(rules, EMPTY_BOOKS, [id], Fetch(nodes, txs)) == Outcome(Supply.GENESIS_BOOKS, None)
    ensures Settled(rules, g, nodes, txs, Supply.GENESIS_BOOKS, id, EmissionChecks(0, 0))
  {
    hide ApplyAll, Graph.Order;
    assert ChecksAfter(0) == EmissionChecks(0, 0);
    assert ChecksAfter(1) == SlotApplied(ChecksAfter(0), 0);
  }

  lemma BestIsSound(store: Stores.Store)
    requires store.Valid()
    ensures Stores.Sound(Stores.ViewOf(store.genesis, store.nodes), store.nodes, store.tips)
    ensures BestTip(Stores.ViewOf(store.genesis, store.nodes)) == store.orderTip
  {
  }

  /** The order a rebuild asks for is the one the store materializes. */
  lemma BestOrder(store: Stores.Store)
    requires store.Valid()
    ensures store.orderTip in store.nodes && |store.order| >= 1
    ensures store.order[|store.order| - 1] == store.orderTip
    ensures Stores.ViewOf(store.genesis, store.nodes).Order(store.orderTip) == store.order
  {
    Stores.Parts(store);
    TipIsLast(store.View(), store.orderTip);
  }

  lemma FreshStarts(target: Ledgers.Ledger, order: seq<Hash>)
    requires target.Value() == EMPTY_BOOKS
    ensures target.applied == 0 && ChecksAfter(0) == EmissionChecks(0, 0) && order[0..] == order
  {
  }

  lemma NothingLeft(rules: Rules, books: Books, order: seq<Hash>, fetch: Hash -> Option<Payload>)
    ensures ApplyAll(rules, books, order[|order|..], fetch) == Outcome(books, None)
  {
  }

  lemma NoChecks(checks: EmissionChecks, start: nat)
    requires start <= LAST_SLOT + 1
    ensures ChecksRun(checks, start, start) == checks
  {
  }

  lemma MoreChecks(checks: EmissionChecks, start: nat, end: nat)
    requires start < end <= LAST_SLOT + 1
    ensures ChecksRun(checks, start, end) == SlotApplied(ChecksRun(checks, start, end - 1), end - 1)
  {
    hide SlotApplied;
  }

  lemma NextChecks(slots: nat)
    requires 0 < slots <= LAST_SLOT + 1
    ensures ChecksAfter(slots) == SlotApplied(ChecksAfter(slots - 1), slots - 1)
  {
    hide SlotApplied;
  }

  lemma SyncExtends(rules: Rules, books: Books, frontier: Hash, order: seq<Hash>, fetch: Hash -> Option<Payload>)
    requires books.applied >= 1 && ExtendsFrontier(order, books.applied, frontier)
    ensures order != [] && books.applied <= |order|
    ensures var end := ApplyAll(rules, books, order[books.applied..], fetch);
            && books.applied <= end.books.applied <= |order|
            && SyncOf(rules, books, frontier, order, fetch) ==
               Sync(end.books, order[end.books.applied - 1], end.refusal)
            && (end.refusal.None? ==> end.books.applied == |order|)
  {
    hide ApplyAll;
    FoldPrefix(rules, books, order[books.applied..], fetch);
  }

  lemma SyncRebuilds(rules: Rules, books: Books, frontier: Hash, order: seq<Hash>, fetch: Hash -> Option<Payload>)
    requires books.applied >= 1 && order != [] && !ExtendsFrontier(order, books.applied, frontier)
    ensures var whole := ApplyAll(rules, EMPTY_BOOKS, order, fetch);
            && SyncOf(rules, books, frontier, order, fetch) ==
               (if whole.refusal.Some? then Sync(books, frontier, whole.refusal)
                else Sync(whole.books, order[|order| - 1], None))
            && (whole.refusal.None? ==> whole.books.applied == |order|)
  {
    hide ApplyAll;
    FoldPrefix(rules, EMPTY_BOOKS, order, fetch);
  }

  lemma StandingVerdict(e: Engine)
    requires e.Standing() && e.store.order != []
    ensures e.ledger.Value().applied >= 1
    ensures var s := SyncOf(e.rules, e.ledger.Value(), e.frontier, e.store.order, Fetch(e.store.nodes, e.txs));
            var whole := ApplyAll(e.rules, EMPTY_BOOKS, e.store.order, Fetch(e.store.nodes, e.txs));
            && s.refusal == whole.refusal
            && (s.refusal.None? ==> s.books == whole.books && s.frontier == e.store.orderTip)
  {
    hide *;
    var g, books := e.store.View(), e.ledger.Value();
    StandingParts(e);
    Stores.Parts(e.store);
    BestIsHeld(e.store);
    SettledParts(e.rules, g, e.store.nodes, e.txs, books, e.frontier, e.checks);
    SyncDecides(e.rules, g, e.store.orderTip, Fetch(e.store.nodes, e.txs), books, e.frontier);
  }

  lemma StandingChecks(e: Engine)
    requires e.Standing()
    ensures 1 <= e.ledger.applied <= LAST_SLOT + 1 && e.checks == ChecksAfter(e.ledger.applied)
  {
    hide *;
    StandingParts(e);
    LedgerSlots(e.ledger);
    SettledParts(e.rules, e.store.View(), e.store.nodes, e.txs, e.ledger.Value(), e.frontier, e.checks);
  }

  lemma TipCount(store: Stores.Store)
    requires store.Valid()
    ensures |store.tips| == 1 <==> store.View().Tips() == {store.orderTip}
  {
    hide *;
    Stores.Parts(store);
    BestIsATip(store);
    One(store.tips, store.orderTip);
  }

  lemma BestIsATip(store: Stores.Store)
    requires store.Valid()
    ensures store.tips == store.View().Tips() && store.orderTip in store.tips
  {
    hide Graph.Tips, Graph.Order;
    Stores.Parts(store);
  }

  lemma One(s: set<Hash>, x: Hash)
    requires x in s
    ensures |s| == 1 <==> s == {x}
  {
    assert s == {x} + (s - {x});
  }

  /** The lookup reads the chain: it hits exactly when the frontier is on the best tip's chain. */
  lemma BranchTaken(e: Engine)
    requires e.Standing()
    ensures e.store.Valid() && e.store.View().Valid() && e.store.orderTip in e.store.View().headers
    ensures e.ledger.applied >= 1
    ensures ExtendsFrontier(e.store.order, e.ledger.applied, e.frontier) <==>
            e.store.View().OnChain(e.frontier, e.store.orderTip)
  {
    hide *;
    var g, books := e.store.View(), e.ledger.Value();
    StandingParts(e);
    Stores.Parts(e.store);
    BestIsHeld(e.store);
    LedgerSlots(e.ledger);
    SettledParts(e.rules, g, e.store.nodes, e.txs, books, e.frontier, e.checks);
    SettledSlots(e.rules, g, e.store.nodes, e.txs, books, e.frontier, e.checks);
    LookupDecides(g, e.store.orderTip, e.frontier);
  }

  lemma LookupHits(order: seq<Hash>, applied: nat, frontier: Hash)
    requires applied >= 1 && |order| >= applied && order[applied - 1] == frontier
    ensures ExtendsFrontier(order, applied, frontier)
  {
  }

  lemma LookupMisses(order: seq<Hash>, applied: nat, frontier: Hash)
    requires applied >= 1 && !(|order| >= applied && order[applied - 1] == frontier)
    ensures !ExtendsFrontier(order, applied, frontier)
  {
  }

  lemma StandingWhenSynced(e: Engine)
    requires e.Synced()
    ensures e.Standing() && e.store.Valid() && e.frontier == e.store.orderTip
  {
  }

  lemma BodiesRegistered(e: Engine, before: map<Hash, Transaction>)
    requires e.store.Valid() && e.frontier == e.store.orderTip
    requires Settled(e.rules, e.store.View(), e.store.nodes, before, e.ledger.Value(), e.frontier, e.checks)
    requires forall id | id in before :: id in e.txs && e.txs[id] == before[id]
    ensures e.Synced()
  {
    hide *;
    var g := e.store.View();
    BestIsHeld(e.store);
    ExtendsItself(g);
    SettledStays(e.rules, g, g, e.store.nodes, e.store.nodes, before, e.txs, e.ledger.Value(), e.frontier, e.checks);
    SyncedWhole(e);
  }

  lemma ExtendsItself(g: Graph)
    ensures Extends(g, g)
  {
  }

  /** The ledger stands where it stood once the store has grown. */
  lemma StandsAfterInsert(
    e: Engine, g: Graph, nodes: map<Hash, Stores.NodeData>, block: Block)
    requires e.store.Valid() && e.store.View() == Grown(g, block.id, block.header)
    requires g.Valid() && block.id !in g.headers && g.headers == Stores.Headers(nodes)
    requires Stores.Recorded(nodes, e.store.nodes, block)
    requires Settled(e.rules, g, nodes, e.txs, e.ledger.Value(), e.frontier, e.checks)
    ensures e.Standing()
  {
    hide *;
    var h := e.store.View();
    BestIsHeld(e.store);
    Stores.Parts(e.store);
    GrownExtends(g, block.id, block.header);
    HeldRecords(g, nodes, e.store.nodes, h, block);
    SettledStays(e.rules, g, h, nodes, e.store.nodes, e.txs, e.txs, e.ledger.Value(), e.frontier, e.checks);
    StandingWhole(e);
  }

  lemma AcceptedGrows(g: Graph, digests: Digests, block: Block, policy: Policy, nowMs: nat)
    requires g.Valid() && |block.header.parents| > 0
    ensures var outcome := Stores.StoreOutcome(g, digests, block, policy, nowMs);
            && Stores.StoreAfter(g, digests, block, policy, nowMs) ==
               (if outcome.Success? then Grown(g, block.id, block.header) else g)
            && (outcome.Success? ==> block.id !in g.headers && outcome.value == block.id)
  {
    if Stores.StoreOutcome(g, digests, block, policy, nowMs).Success? {
      Stores.Admissible(g, digests, block, policy, nowMs);
    }
  }

  lemma GrownExtends(g: Graph, id: Hash, header: Header)
    requires id !in g.headers
    ensures Extends(g, Grown(g, id, header))
  {
  }

  lemma HeldRecords(
    g: Graph, nodes: map<Hash, Stores.NodeData>, nodes': map<Hash, Stores.NodeData>, h: Graph, block: Block)
    requires h == Grown(g, block.id, block.header) && block.id !in g.headers
    requires g.headers == Stores.Headers(nodes) && h.headers == Stores.Headers(nodes')
    requires Stores.Recorded(nodes, nodes', block)
    ensures forall id | id in g.headers && id in nodes ::
              id in nodes' && nodes'[id].header == nodes[id].header && nodes'[id].txIds == nodes[id].txIds
  {
    forall id | id in g.headers && id in nodes
      ensures id in nodes' && nodes'[id].header == nodes[id].header && nodes'[id].txIds == nodes[id].txIds
    {
      assert h.headers[id] == g.headers[id];
    }
  }

  lemma StandingWhole(e: Engine)
    requires e.store.Valid()
    requires Settled(e.rules, e.store.View(), e.store.nodes, e.txs, e.ledger.Value(), e.frontier, e.checks)
    ensures e.Standing()
  {
  }

  // ----- what a synced engine shows

  /** The fold of an engine order is a history from the genesis, every block above height zero. */
  lemma FoldIsHistory(rules: Rules, g: Graph, tip: Hash, fetch: Hash -> Option<Payload>, books: Books)
    returns (blocks: seq<Payload>)
    requires g.Valid() && tip in g.headers && ApplyAll(rules, EMPTY_BOOKS, g.Order(tip), fetch) == Outcome(books, None)
    requires forall id | id in g.headers && fetch(id).Some? :: fetch(id).value.height == g.headers[id].height
    ensures g.Order(tip) != [] && blocks == Supply.Accepted(rules, Supply.GENESIS_BOOKS, g.Order(tip)[1..], fetch)
    ensures Supply.Replay(rules, Supply.GENESIS_BOOKS, blocks) == Success(books)
    ensures forall block | block in blocks :: block.height > 0
    ensures ApplyOrder(rules, EMPTY_BOOKS, g.Order(tip), fetch) == Outcome(books, None)
  {
    hide Apply, Graph.Order, Supply.Replay;
    var order := g.Order(tip);
    GenesisIsFirst(g, tip);
    var first := fetch(order[0]).value;
    EmptyGenesis(rules, first);
    blocks := Supply.Accepted(rules, Supply.GENESIS_BOOKS, order[1..], fetch);
    Supply.OrdersReplay(rules, Supply.GENESIS_BOOKS, order[1..], fetch);
    forall i | 0 <= i < |order[1..]| && fetch(order[1..][i]).Some? ensures fetch(order[1..][i]).value.height > 0 {
      assert order[1..][i] == order[i + 1];
      HeightsAlong(g, tip, i + 1);
    }
    AcceptedHeights(rules, Supply.GENESIS_BOOKS, order[1..], fetch);
  }

  lemma EmptyGenesis(rules: Rules, first: Payload)
    requires Apply(rules, EMPTY_BOOKS, first.height, first.txs).Success? && first.height == 0
    ensures first.txs == [] && Apply(rules, EMPTY_BOOKS, first.height, first.txs) == Success(Supply.GENESIS_BOOKS)
  {
    GenesisApplies(rules, EMPTY_BOOKS);
  }

  lemma {:induction false} AcceptedHeights(rules: Rules, books: Books, order: seq<Hash>, fetch: Hash -> Option<Payload>)
    requires forall i | 0 <= i < |order| && fetch(order[i]).Some? :: fetch(order[i]).value.height > 0
    ensures forall block | block in Supply.Accepted(rules, books, order, fetch) :: block.height > 0
    decreases |order|
  {
    hide Apply;
    if order != [] && fetch(order[0]).Some? {
      var payload := fetch(order[0]).value;
      var next := Apply(rules, books, payload.height, payload.txs);
      if next.Success? {
        forall i | 0 <= i < |order[1..]| && fetch(order[1..][i]).Some? ensures fetch(order[1..][i]).value.height > 0 {
          assert order[1..][i] == order[i + 1];
        }
        AcceptedHeights(rules, next.value, order[1..], fetch);
      }
    }
  }

  /**
   The ledger of a synced engine is a fresh ledger folded over the consensus order of the best tip; its slots
   are the positions of that order, and its emission is the calendar's, as the independent checks recompute it.
   */
  lemma SyncedLedgerIsFold(e: Engine) returns (blocks: seq<Payload>)
    requires e.Synced()
    ensures e.store.Valid() && e.frontier == e.store.orderTip == BestTip(e.store.View())
    ensures e.store.order == e.store.View().Order(e.frontier)
    ensures ApplyOrder(e.rules, EMPTY_BOOKS, e.store.order, Fetch(e.store.nodes, e.txs)) ==
            Outcome(e.ledger.Value(), None)
    ensures e.ledger.applied == |e.store.order|
    ensures e.ledger.emitted == e.checks.expectedEmitted
    ensures blocks == e.AppliedHistory()
    ensures Supply.Replay(e.rules, Supply.GENESIS_BOOKS, blocks) == Success(e.ledger.Value())
  {
    hide *;
    var g, books, fetch := e.store.View(), e.ledger.Value(), Fetch(e.store.nodes, e.txs);
    StandingWhenSynced(e);
    StandingParts(e);
    Stores.Parts(e.store);
    BestIsHeld(e.store);
    LedgerSlots(e.ledger);
    LedgerFields(e.ledger);
    SettledParts(e.rules, g, e.store.nodes, e.txs, books, e.frontier, e.checks);
    SettledSlots(e.rules, g, e.store.nodes, e.txs, books, e.frontier, e.checks);
    FetchHeights(e.store, e.txs);
    blocks := FoldIsHistory(e.rules, g, e.frontier, fetch, books);
    HistoryOf(e);
    GenesisMinted();
    Supply.GenesisBalances();
    Supply.HistoryMints(e.rules, Supply.GENESIS_BOOKS, blocks, 0, 0);
    ChecksAreMinted(books.applied);
  }

  /** The history behind a synced ledger: blocks with heights, replayed from the genesis. */
  lemma SyncedHistory(e: Engine) returns (blocks: seq<Payload>)
    requires e.Synced()
    ensures blocks == e.AppliedHistory() && forall block | block in blocks :: block.height > 0
    ensures Supply.Replay(e.rules, Supply.GENESIS_BOOKS, blocks) == Success(e.ledger.Value())
    ensures 1 <= e.ledger.applied <= LAST_SLOT + 1 && e.checks == ChecksAfter(e.ledger.applied)
  {
    hide *;
    var g, books, fetch := e.store.View(), e.ledger.Value(), Fetch(e.store.nodes, e.txs);
    StandingWhenSynced(e);
    StandingParts(e);
    StandingChecks(e);
    Stores.Parts(e.store);
    BestIsHeld(e.store);
    SettledParts(e.rules, g, e.store.nodes, e.txs, books, e.frontier, e.checks);
    FetchHeights(e.store, e.txs);
    blocks := FoldIsHistory(e.rules, g, e.frontier, fetch, books);
    HistoryOf(e);
  }

  lemma TreasuryBalance(e: Engine, blocks: seq<Payload>)
    requires Supply.Replay(e.rules, Supply.GENESIS_BOOKS, blocks) == Success(e.ledger.Value())
    requires forall block | block in blocks :: block.height > 0
    requires 1 <= e.ledger.applied <= LAST_SLOT + 1 && e.checks == ChecksAfter(e.ledger.applied)
    ensures Treasuries.Held(e.ledger.utxos, e.rules.treasury) <= U64_MAX
    ensures Treasuries.Held(e.ledger.utxos, e.rules.treasury) == e.checks.expectedTreasury <==>
            Treasuries.TakenOver(e.rules, Supply.GENESIS_BOOKS, blocks, e.rules.treasury) ==
            Treasuries.DonatedOver(e.rules, Supply.GENESIS_BOOKS, blocks)
  {
    hide *;
    Treasuries.TreasuryIsShares(e.rules, blocks);
    Treasuries.HeldWithinEmission(e.rules, blocks, e.rules.treasury);
    LedgerOutputs(e.ledger);
    CapFits();
    ChecksAreShares(e.ledger.applied);
  }

  lemma CapFits()
    ensures CAP_ATOMIC <= U64_MAX
  {
  }

  lemma NotSaturated(a: nat, b: nat, bound: nat)
    requires a + b <= bound <= U64_MAX
    ensures SaturatingAdd(a, b) == a + b
  {
  }

  lemma LedgerOutputs(ledger: Ledgers.Ledger)
    ensures ledger.Value().utxos == ledger.utxos && ledger.Value().applied == ledger.applied
  {
  }

  lemma HistoryOf(e: Engine)
    requires e.store.order != []
    ensures e.AppliedHistory() ==
            Supply.Accepted(e.rules, Supply.GENESIS_BOOKS, e.store.order[1..], Fetch(e.store.nodes, e.txs))
  {
    hide Supply.Accepted;
  }

  lemma GenesisMinted()
    ensures Supply.GENESIS_BOOKS.applied == 1 && Supply.GENESIS_BOOKS.emitted == Minted(0) == 0
  {
  }

  lemma FetchHeights(store: Stores.Store, txs: map<Hash, Transaction>)
    requires store.Valid()
    ensures forall id | id in store.View().headers && Fetch(store.nodes, txs)(id).Some? ::
              Fetch(store.nodes, txs)(id).value.height == store.View().headers[id].height
  {
    hide *;
    Stores.Parts(store);
    HeightsKept(store.View(), store.nodes, txs);
  }

  lemma HeightsKept(g: Graph, nodes: map<Hash, Stores.NodeData>, txs: map<Hash, Transaction>)
    requires g.headers == Stores.Headers(nodes)
    ensures forall id | id in g.headers && Fetch(nodes, txs)(id).Some? ::
              Fetch(nodes, txs)(id).value.height == g.headers[id].height
  {
    hide BodiesOf;
  }
}
