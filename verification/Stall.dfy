/**
 What a refusal in mid-suffix can lead to. The frontier is then a merged block whose order is longer or shorter than
 the slots applied, and the lookup may hit on a rival tip: a run in which the engine reports success on a ledger
 that is not the fold of its best order.
 */
module Stalls {
  import opened Wrappers
  import opened Words
  import opened Ranking
  import opened Blocks
  import opened Graphs
  import opened Ancestry
  import opened Growth
  import opened Ordering
  import opened Calendar
  import opened Transactions
  import opened Ledgers
  import opened Supply
  import opened Clusters
  import opened Reuses
  import Coloring
  import Engines
  import Runs
  import Stores

  const BOB := Address(Devnet, 11, 12)

  // ----- the graph

  /** The transactions a block of the run lists: one claim each, and in block 6 one whose body nobody registered. */
  function ListOf(rules: Rules, lost: Hash, id: Hash): seq<Hash> {
    if id == 2 then [rules.txId(Claim(rules, ALICE, 1))]
    else if id == 3 || id == 4 then [rules.txId(Claim(rules, BOB, 1))]
    else if id == 5 then [rules.txId(Claim(rules, BOB, 2))]
    else if id == 6 then [lost]
    else []
  }

  /** Blocks 2, 3 and 4 stand on the genesis; block 6 merges 2 and 4, block 5 merges 3 and 4. */
  function Carried(digests: Digests, rules: Rules, lost: Hash, id: Hash): Block {
    var parents := if id == 6 then [2, 4] else if id == 5 then [3, 4] else if id == 1 then [ZERO] else [1];
    Timeless(digests, id, parents, if id == 1 then 0 else if id < 5 then 1 else 2, ListOf(rules, lost, id))
  }

  /** The calls, in their order. */
  function StallingRun(digests: Digests, policy: Policy, rules: Rules, lost: Hash): seq<Runs.Call> {
    [Runs.Call(Carried(digests, rules, lost, 2), policy, 0), Runs.Call(Carried(digests, rules, lost, 3), policy, 0),
     Runs.Call(Carried(digests, rules, lost, 4), policy, 0), Runs.Call(Carried(digests, rules, lost, 6), policy, 0),
     Runs.Call(Carried(digests, rules, lost, 5), policy, 0)]
  }

  /** The headers of the run differ, so some header digest gives its ids. */
  lemma StallingIds(digests: Digests, policy: Policy, rules: Rules, lost: Hash)
    ensures var genesis, calls := Carried(digests, rules, lost, 1), StallingRun(digests, policy, rules, lost);
            HeadersApart(genesis, calls) && exists headerId :: Addressed(genesis, calls, headerId)
  {
    hide ListOf;
    NoncesAddress(Carried(digests, rules, lost, 1), StallingRun(digests, policy, rules, lost));
  }

  ghost predicate OnGenesis(g: Graph, i: Hash) {
    && Derives(g, i, 1, {1}, {1}) && i != g.genesis && g.genesis == 1 && Derives(g, 1, 0, {}, {})
    && g.headers[i].parents == [1]
  }

  ghost predicate Joins(g: Graph, id: Hash, a: Hash, b: Hash) {
    && OnGenesis(g, a) && OnGenesis(g, b) && Derives(g, id, 2, {1, a, b}, {1, a, b}) && id != g.genesis
    && g.headers[id].parents == [a, b] && g.SelectedParent(id) == a
  }

  lemma OnGenesisStays(g: Graph, h: Graph, i: Hash)
    requires OnGenesis(g, i) && h.Valid() && Extends(g, h)
    ensures OnGenesis(h, i)
  {
    hide Derives;
    Held(g, i);
    DerivesStays(g, h, i, 1, {1}, {1});
    DerivesStays(g, h, 1, 0, {}, {});
  }

  lemma Held(g: Graph, i: Hash)
    requires OnGenesis(g, i)
    ensures g.Valid() && i in g.headers && 1 in g.headers
  {
    hide Graph.Valid, Graph.Past, Graph.Blues;
  }

  lemma JoinsStays(g: Graph, h: Graph, id: Hash, a: Hash, b: Hash)
    requires Joins(g, id, a, b) && h.Valid() && Extends(g, h)
    ensures Joins(h, id, a, b)
  {
    hide Derives, OnGenesis, Graph.Valid, Graph.Past, Graph.Blues;
    JoinHeld(g, id, a, b);
    OnGenesisStays(g, h, a);
    OnGenesisStays(g, h, b);
    DerivesStays(g, h, id, 2, {1, a, b}, {1, a, b});
    SelectedStable(g, h, id);
  }

  lemma JoinHeld(g: Graph, id: Hash, a: Hash, b: Hash)
    requires Joins(g, id, a, b)
    ensures g.Valid() && g.Child(id) && a in g.headers && b in g.headers
  {
    hide Graph.Valid, Graph.Past, Graph.Blues;
  }

  /** A block on the genesis. */
  lemma GenesisStep(g: Graph, digests: Digests, policy: Policy, id: Hash, txIds: seq<Hash>)
    requires Derives(g, 1, 0, {}, {}) && g.genesis == 1 && id !in g.headers && policy.difficultyBits == 0
    ensures var block := Timeless(digests, id, [1], 1, txIds);
            var h := After(g, digests, block, policy, 0);
            && Growth.Outcome(g, digests, block, policy, 0).Success?
            && h.Valid() && Extends(g, h) && h.headers.Keys == g.headers.Keys + {id} && OnGenesis(h, id)
            && h.Tips() == g.Tips() - {1} + {id}
  {
    hide Derives, Growth.Outcome, After, Graph.Valid, Graph.Tips;
    SingleStep(g, digests, policy, id, 1, 0, {}, {}, txIds);
    assert {} + {1} == {1 as Hash};
    var h := After(g, digests, Timeless(digests, id, [1], 1, txIds), policy, 0);
    DerivesValid(g, 1, 0, {}, {});
    DerivesStays(g, h, 1, 0, {}, {});
    TipsAfter(g, digests, policy, Timeless(digests, id, [1], 1, txIds));
    assert Elements([1]) == {1};
  }

  lemma DerivesValid(g: Graph, id: Hash, height: nat, past: set<Hash>, blues: set<Hash>)
    requires Derives(g, id, height, past, blues)
    ensures g.Valid() && id in g.headers
  {
    hide Graph.Valid, Graph.Past, Graph.Blues;
  }

  lemma TipsAfter(g: Graph, digests: Digests, policy: Policy, block: Block)
    requires g.Valid() && Growth.Outcome(g, digests, block, policy, 0).Success? && block.header.parents != []
    ensures After(g, digests, block, policy, 0).Tips() == g.Tips() - Elements(block.header.parents) + {block.id}
  {
    hide Graph.Tips, Refusal, Graph.Valid;
    TipsGrow(g, block.id, block.header);
  }

  /** Of two blocks on the genesis the smaller id is selected, and the other joins the blues. */
  lemma JoinColors(g: Graph, a: Hash, b: Hash)
    requires OnGenesis(g, a) && OnGenesis(g, b) && a < b
    ensures g.Valid() && g.Held([a, b]) && g.SelectedOver([a, b]) == a
    ensures g.PastOver([a, b]) == {1, a, b} && g.BluesOver([a, b]) == {1, a, b}
    ensures HeightOver(g.headers, [a, b]) == 2 && g.headers[a].timestamp == 0 && g.headers[b].timestamp == 0
  {
    hide Graph.Past, Graph.Blues, Graph.PastOver, Graph.BluesOver, Graph.Valid, HeightOver, Graph.Anticone;
    HeightOfTwo(g, a, b);
    JoinPast(g, a, b);
    TieSelected(g, a, b);
    OneBeside(g, a, b);
    OneCandidate(g, [a, b], a, b);
    assert g.Blues(a) + {a} + {b} == {1, a, b};
  }

  lemma JoinPast(g: Graph, a: Hash, b: Hash)
    requires OnGenesis(g, a) && OnGenesis(g, b) && a < b
    ensures g.Valid() && a in g.headers && b in g.headers
    ensures g.PastOver([a, b]) == {1, a, b} && g.PastOver([a, b]) - g.View(a) == {b}
  {
    hide Graph.Past, Graph.Blues, Graph.PastOver, Graph.Valid;
    PastOfTwo(g, a, b);
    assert g.View(a) == {1, a} && g.View(b) == {1, b};
  }

  lemma TieSelected(g: Graph, a: Hash, b: Hash)
    requires OnGenesis(g, a) && OnGenesis(g, b) && a < b
    ensures g.Valid() && g.Held([a, b]) && g.SelectedOver([a, b]) == a
  {
    hide Graph.Past, Graph.PastOver, Graph.Blues, Graph.Valid;
    var parents := [a, b];
    assert Elements(parents) == {a, b};
    var scores := g.Scores(Elements(parents), HeightOver(g.headers, parents));
    assert scores[a] == 2 && scores[b] == 2;
    assert g.SelectedOver(parents) == Leader(Elements(parents), scores);
  }

  lemma OneBeside(g: Graph, a: Hash, b: Hash)
    requires OnGenesis(g, a) && OnGenesis(g, b) && a < b
    ensures g.Valid() && b in g.headers && g.Blues(a) + {a} <= g.headers.Keys
    ensures |g.Anticone(b, g.Blues(a) + {a})| <= K
  {
    hide Graph.Past, Graph.Blues, Graph.Valid;
    CardinalityMonotone(g.Anticone(b, g.Blues(a) + {a}), {a});
  }

  /** A merge of two blocks on the genesis. */
  lemma JoinStep(g: Graph, digests: Digests, policy: Policy, id: Hash, a: Hash, b: Hash, txIds: seq<Hash>)
    requires OnGenesis(g, a) && OnGenesis(g, b) && a < b && id !in g.headers && policy.difficultyBits == 0
    ensures var block := Timeless(digests, id, [a, b], 2, txIds);
            var h := After(g, digests, block, policy, 0);
            && Growth.Outcome(g, digests, block, policy, 0).Success?
            && h.Valid() && Extends(g, h) && h.headers.Keys == g.headers.Keys + {id} && Joins(h, id, a, b)
            && h.Tips() == g.Tips() - {a, b} + {id}
  {
    hide OnGenesis, Growth.Outcome, After, Graph.Valid, Graph.Tips, Graph.Past, Graph.Blues, Graph.PastOver,
      Graph.BluesOver, Graph.SelectedOver, HeightOver;
    var h := After(g, digests, Timeless(digests, id, [a, b], 2, txIds), policy, 0);
    JoinColors(g, a, b);
    Accepts(g, digests, policy, id, [a, b], 2, txIds);
    OnGenesisStays(g, h, a);
    OnGenesisStays(g, h, b);
    SelectedOverStable(g, h, [a, b]);
    TipsAfter(g, digests, policy, Timeless(digests, id, [a, b], 2, txIds));
    assert Elements([a, b]) == {a, b};
  }

  /** Some blocks on the genesis, and nothing else. */
  ghost predicate Fork(g: Graph, ids: set<Hash>) {
    && Derives(g, 1, 0, {}, {}) && g.genesis == 1 && g.headers.Keys == ids + {1}
    && (forall i | i in ids :: OnGenesis(g, i))
    && g.Tips() == if ids == {} then {1} else ids
  }

  /** Before the last insertion. */
  ghost predicate Halfway(g: Graph) {
    Joins(g, 6, 2, 4) && OnGenesis(g, 3) && OnGenesis(g, 4) && g.Tips() == {3, 6} && g.headers.Keys == {1, 2, 3, 4, 6}
  }

  /** What the run leaves: two merges over three blocks on the genesis, the second one first by id. */
  ghost predicate Stalling(g: Graph) {
    && Joins(g, 6, 2, 4) && Joins(g, 5, 3, 4) && g.Tips() == {5, 6} && g.headers.Keys == {1, 2, 3, 4, 5, 6}
  }

  lemma RootForks(digests: Digests, rules: Rules, lost: Hash)
    ensures Fork(Stores.Root(Carried(digests, rules, lost, 1)), {})
    ensures GenesisRefusal(digests, Carried(digests, rules, lost, 1)).None?
  {
    GenesisLinks(digests);
    NoIds();
    var root := Stores.Root(Plain(digests, 1, [ZERO], 0));
    LinkedAt(root, 0, 1);
    Stores.SoloGraph(1, root.headers[1], []);
  }

  lemma ForkStep(g: Graph, ids: set<Hash>, digests: Digests, policy: Policy, id: Hash, txIds: seq<Hash>)
    requires Fork(g, ids) && id !in ids && id > 1 && 1 !in ids && policy.difficultyBits == 0
    ensures var block := Timeless(digests, id, [1], 1, txIds);
            && Growth.Outcome(g, digests, block, policy, 0).Success?
            && Fork(After(g, digests, block, policy, 0), ids + {id})
  {
    hide OnGenesis, Growth.Outcome, After, Graph.Valid, Graph.Tips, Derives;
    var h := After(g, digests, Timeless(digests, id, [1], 1, txIds), policy, 0);
    GenesisStep(g, digests, policy, id, txIds);
    RootStays(h, id);
    forall i | i in ids + {id} ensures OnGenesis(h, i) {
      if i in ids {
        OnGenesisStays(g, h, i);
      }
    }
    assert h.headers.Keys == (ids + {id}) + {1};
    assert h.Tips() == ids + {id};
  }

  lemma HalfStep(g: Graph, digests: Digests, policy: Policy, txIds: seq<Hash>)
    requires Fork(g, {2, 3, 4}) && policy.difficultyBits == 0
    ensures var block := Timeless(digests, 6, [2, 4], 2, txIds);
            && Growth.Outcome(g, digests, block, policy, 0).Success?
            && Halfway(After(g, digests, block, policy, 0))
  {
    hide OnGenesis, Joins, Growth.Outcome, After, Graph.Valid, Graph.Tips, Derives;
    var h := After(g, digests, Timeless(digests, 6, [2, 4], 2, txIds), policy, 0);
    JoinStep(g, digests, policy, 6, 2, 4, txIds);
    OnGenesisStays(g, h, 3);
    OnGenesisStays(g, h, 4);
  }

  lemma LastStep(g: Graph, digests: Digests, policy: Policy, txIds: seq<Hash>)
    requires Halfway(g) && policy.difficultyBits == 0
    ensures var block := Timeless(digests, 5, [3, 4], 2, txIds);
            && Growth.Outcome(g, digests, block, policy, 0).Success?
            && Stalling(After(g, digests, block, policy, 0))
  {
    hide OnGenesis, Joins, Growth.Outcome, After, Graph.Valid, Graph.Tips;
    JoinStep(g, digests, policy, 5, 3, 4, txIds);
    JoinsStays(g, After(g, digests, Timeless(digests, 5, [3, 4], 2, txIds), policy, 0), 6, 2, 4);
  }

  lemma RootStays(g: Graph, i: Hash)
    requires OnGenesis(g, i)
    ensures Derives(g, 1, 0, {}, {}) && g.genesis == 1
  {
  }

  // ----- tips and orders

  lemma OnGenesisScore(g: Graph, i: Hash)
    requires OnGenesis(g, i)
    ensures g.Valid() && i in g.headers && g.Score(i) == 2
  {
    hide Graph.Past, Graph.Blues, Graph.Valid;
  }

  lemma JoinScore(g: Graph, id: Hash, a: Hash, b: Hash)
    requires Joins(g, id, a, b) && 1 < a < b
    ensures g.Valid() && id in g.headers && g.Score(id) == 4
  {
    hide Graph.Past, Graph.Blues, Graph.Valid, OnGenesis;
    assert |{1, a, b}| == 3;
  }

  lemma BestFork(g: Graph, ids: set<Hash>, least: Hash)
    requires Fork(g, ids) && least in ids && forall i | i in ids :: least <= i
    ensures g.Valid() && BestTip(g) == least && least in g.headers && g.Order(least) == [1, least]
  {
    hide Graph.Past, Graph.Blues, Graph.Score, Graph.Valid, Graph.Tips, Graph.Order, OnGenesis;
    forall i | i in ids ensures i in TipScores(g) && TipScores(g)[i] == 2 {
      OnGenesisScore(g, i);
    }
    OnGenesisScore(g, least);
    GenesisOrders(g, least);
  }

  lemma BestHalfway(g: Graph)
    requires Halfway(g)
    ensures g.Valid() && BestTip(g) == 6
  {
    hide Graph.Past, Graph.Blues, Graph.Score, Graph.Valid, Graph.Tips, Joins, OnGenesis;
    JoinScore(g, 6, 2, 4);
    OnGenesisScore(g, 3);
    assert TipScores(g)[6] == 4 && TipScores(g)[3] == 2;
  }

  lemma BestStalling(g: Graph)
    requires Stalling(g)
    ensures g.Valid() && BestTip(g) == 5
  {
    hide Graph.Past, Graph.Blues, Graph.Score, Graph.Valid, Graph.Tips, Joins;
    JoinScore(g, 6, 2, 4);
    JoinScore(g, 5, 3, 4);
    assert TipScores(g)[6] == 4 && TipScores(g)[5] == 4;
  }

  lemma GenesisOrders(g: Graph, a: Hash)
    requires OnGenesis(g, a)
    ensures g.Valid() && a in g.headers && g.Order(a) == [1, a]
  {
    hide Graph.Past, Graph.Blues, Graph.Valid, Graph.Fresh;
    Stores.SingleParentPast(g, 1);
    Stores.ChainFresh(g, a);
    GenesisFresh(g);
    assert g.SelectedParent(a) == 1;
    assert g.Order(1) == [1];
  }

  lemma JoinOrders(g: Graph, id: Hash, a: Hash, b: Hash)
    requires Joins(g, id, a, b) && a != b
    ensures g.Valid() && id in g.headers && g.Order(id) == [1, a, b, id]
  {
    hide Graph.Past, Graph.Blues, Graph.Valid, Graph.Fresh, Graph.Order;
    JoinFresh(g, id, a, b);
    GenesisOrders(g, a);
    OrderStep(g, id);
  }

  lemma JoinFresh(g: Graph, id: Hash, a: Hash, b: Hash)
    requires Joins(g, id, a, b) && a != b
    ensures g.Valid() && id in g.headers && g.Fresh(id) == [b, id]
  {
    hide Graph.Past, Graph.Blues, Graph.Valid, Graph.Fresh, Graph.Order, Graph.View, Joins, Graph.SelectedParent;
    JoinHeld(g, id, a, b);
    JoinNews(g, id, a, b);
    FreshElements(g, id);
    FreshLast(g, id);
    Pair(g.Fresh(id), b, id);
  }

  lemma JoinNews(g: Graph, id: Hash, a: Hash, b: Hash)
    requires Joins(g, id, a, b) && a != b
    ensures g.Valid() && g.Child(id) && b != id && g.View(id) - g.View(g.SelectedParent(id)) == {b, id}
  {
    hide Graph.Past, Graph.Blues, Graph.Valid, Graph.SelectedParent;
  }

  lemma Pair(r: seq<Hash>, b: Hash, id: Hash)
    requires Distinct(r) && Elements(r) == {b, id} && b != id && EndsWith(r, id)
    ensures r == [b, id]
  {
    DistinctCount(r);
    assert |{b, id}| == 2;
    assert r[0] in Elements(r);
  }

  lemma HalfwayParts(g: Graph)
    requires Halfway(g)
    ensures g.Valid() && 6 in g.headers && BestTip(g) == 6 && g.Order(6) == [1, 2, 4, 6]
  {
    hide OnGenesis, Graph.Valid, Graph.Order, Graph.Tips;
    BestHalfway(g);
    JoinOrders(g, 6, 2, 4);
  }

  lemma StallingParts(g: Graph)
    requires Stalling(g)
    ensures g.Valid() && 4 in g.headers && 5 in g.headers && BestTip(g) == 5
    ensures |g.Order(4)| == 2 && g.Order(5) == [1, 3, 4, 5] && !g.OnChain(4, 5)
  {
    hide OnGenesis, Graph.Valid, Graph.Order, Graph.OnChain, Graph.Tips;
    BestStalling(g);
    JoinOrders(g, 5, 3, 4);
    GenesisOrders(g, 4);
    LookupIsExact(g, 5, 4);
  }

  // ----- the bodies

  /** The bodies the engine was given. */
  function Registered(rules: Rules): map<Hash, Transaction> {
    var alice, bob, later := Claim(rules, ALICE, 1), Claim(rules, BOB, 1), Claim(rules, BOB, 2);
    map[][rules.txId(alice) := alice][rules.txId(bob) := bob][rules.txId(later) := later]
  }

  /** Three claims of different ids, and an id of none of them. */
  ghost predicate Distinguished(rules: Rules, lost: Hash) {
    var alice, bob := rules.txId(Claim(rules, ALICE, 1)), rules.txId(Claim(rules, BOB, 1));
    var later := rules.txId(Claim(rules, BOB, 2));
    alice != bob && alice != later && bob != later && lost != alice && lost != bob && lost != later
  }

  /** Every held block of the run stands in the table with its header and its list. */
  ghost predicate Listed(g: Graph, nodes: map<Hash, Stores.NodeData>, rules: Rules, lost: Hash) {
    g.headers == Stores.Headers(nodes) && forall id | id in nodes :: nodes[id].txIds == ListOf(rules, lost, id)
  }

  lemma OneBody(txs: map<Hash, Transaction>, id: Hash)
    ensures Engines.BodiesOf(txs, [id]) == if id in txs then Some([txs[id]]) else None
    ensures Engines.BodiesOf(txs, []) == Some([])
  {
    assert [id][1..] == [] && Engines.BodiesOf(txs, []) == Some([]);
    if id in txs {
      assert [txs[id]] + [] == [txs[id]];
    }
  }

  lemma FetchHeld(nodes: map<Hash, Stores.NodeData>, txs: map<Hash, Transaction>, id: Hash)
    requires id in nodes
    ensures Engines.Fetch(nodes, txs)(id) ==
            var bodies := Engines.BodiesOf(txs, nodes[id].txIds);
            if bodies.None? then None else Some(Payload(nodes[id].header.height, bodies.value))
  {
    assert Engines.Fetch(nodes, txs)(id) == Engines.PayloadIn(nodes, txs, id);
  }

  lemma FetchListed(g: Graph, nodes: map<Hash, Stores.NodeData>, rules: Rules, lost: Hash, id: Hash)
    requires Listed(g, nodes, rules, lost) && id in g.headers
    ensures Engines.Fetch(nodes, Registered(rules))(id) ==
            var bodies := Engines.BodiesOf(Registered(rules), ListOf(rules, lost, id));
            if bodies.None? then None else Some(Payload(g.headers[id].height, bodies.value))
  {
    hide Claim, ListOf, Registered, Engines.BodiesOf, Engines.Fetch;
    assert nodes[id].header == g.headers[id];
    FetchHeld(nodes, Registered(rules), id);
  }

  lemma RegisteredBodies(rules: Rules, lost: Hash)
    requires Distinguished(rules, lost)
    ensures var alice, bob, later := Claim(rules, ALICE, 1), Claim(rules, BOB, 1), Claim(rules, BOB, 2);
            var txs := Registered(rules);
            && rules.txId(alice) in txs && txs[rules.txId(alice)] == alice
            && rules.txId(bob) in txs && txs[rules.txId(bob)] == bob
            && rules.txId(later) in txs && txs[rules.txId(later)] == later
            && lost !in txs
  {
    hide Claim;
  }

  /** The payloads of the blocks a graph holds. */
  ghost predicate Bodies(rules: Rules, g: Graph, fetch: Hash -> Option<Payload>) {
    && (1 in g.headers ==> fetch(1) == Some(Payload(0, [])))
    && (2 in g.headers ==> fetch(2) == Some(ClaimBlock(rules, ALICE, 1)))
    && (3 in g.headers ==> fetch(3) == Some(ClaimBlock(rules, BOB, 1)))
    && (4 in g.headers ==> fetch(4) == Some(ClaimBlock(rules, BOB, 1)))
    && (5 in g.headers ==> fetch(5) == Some(ClaimBlock(rules, BOB, 2)))
    && (6 in g.headers ==> fetch(6) == None)
  }

  /** The heights of the blocks of the run. */
  ghost predicate Levels(g: Graph) {
    forall id | id in g.headers :: g.headers[id].height == if id == 1 then 0 else if id < 5 then 1 else 2
  }

  lemma ListedBodies(g: Graph, nodes: map<Hash, Stores.NodeData>, rules: Rules, lost: Hash)
    requires Listed(g, nodes, rules, lost) && Distinguished(rules, lost) && Levels(g)
    ensures Bodies(rules, g, Engines.Fetch(nodes, Registered(rules)))
  {
    hide Listed, Claim, Registered, Engines.Fetch, Engines.BodiesOf, Distinguished;
    RegisteredBodies(rules, lost);
    OneBody(Registered(rules), rules.txId(Claim(rules, ALICE, 1)));
    OneBody(Registered(rules), rules.txId(Claim(rules, BOB, 1)));
    OneBody(Registered(rules), rules.txId(Claim(rules, BOB, 2)));
    OneBody(Registered(rules), lost);
    if 1 in g.headers { FetchListed(g, nodes, rules, lost, 1); }
    if 2 in g.headers { FetchListed(g, nodes, rules, lost, 2); }
    if 3 in g.headers { FetchListed(g, nodes, rules, lost, 3); }
    if 4 in g.headers { FetchListed(g, nodes, rules, lost, 4); }
    if 5 in g.headers { FetchListed(g, nodes, rules, lost, 5); }
    if 6 in g.headers { FetchListed(g, nodes, rules, lost, 6); }
  }

  /** The table after one more block. */
  lemma ListedGrows(
    g: Graph, nodes: map<Hash, Stores.NodeData>, h: Graph, nodes': map<Hash, Stores.NodeData>, digests: Digests,
    rules: Rules, lost: Hash, id: Hash)
    requires Listed(g, nodes, rules, lost) && Levels(g) && id > 1 && id !in g.headers
    requires var block := Carried(digests, rules, lost, id);
             h == Growth.Grown(g, id, block.header) && h.headers == Stores.Headers(nodes')
             && Stores.Recorded(nodes, nodes', block)
    ensures Listed(h, nodes', rules, lost) && Levels(h)
  {
    hide ListOf;
    forall x | x in nodes' ensures nodes'[x].txIds == ListOf(rules, lost, x) {
      assert x in h.headers;
    }
  }

  // ----- the ledger

  /** What a block that carries a claim leaves. */
  ghost predicate Follows(rules: Rules, payee: Address, height: nat, books: Books, next: Books) {
    && next.applied == books.applied + 1 && next.spent == books.spent
    && next.utxos == Claimed(rules, payee, height, books.utxos, books.applied)
  }

  /** One claim at the head of a fold. */
  lemma FoldClaim(
    rules: Rules, books: Books, payee: Address, height: nat, id: Hash, rest: seq<Hash>, fetch: Hash -> Option<Payload>)
    returns (next: Books)
    requires 1 <= books.applied <= LAST_YOUNG + 1 && 0 < height <= U64_MAX
    requires fetch(id) == Some(ClaimBlock(rules, payee, height))
    ensures Follows(rules, payee, height, books, next)
    ensures ApplyAll(rules, books, [id] + rest, fetch) == ApplyAll(rules, next, rest, fetch)
  {
    hide Apply, Fits, Claimed;
    SmallFits(height);
    ClaimApplies(rules, payee, books, height);
    next := Apply(rules, books, height, [Claim(rules, payee, height)]).value;
    assert ([id] + rest)[0] == id && ([id] + rest)[1..] == rest;
  }

  lemma FoldGenesis(rules: Rules, rest: seq<Hash>, fetch: Hash -> Option<Payload>)
    requires fetch(1) == Some(Payload(0, []))
    ensures ApplyAll(rules, EMPTY_BOOKS, [1] + rest, fetch) == ApplyAll(rules, GENESIS_BOOKS, rest, fetch)
  {
    hide Apply;
    Engines.GenesisApplies(rules, EMPTY_BOOKS);
    assert ([1] + rest)[0] == 1 && ([1] + rest)[1..] == rest;
  }

  lemma FoldNothing(rules: Rules, books: Books, id: Hash, fetch: Hash -> Option<Payload>)
    ensures ApplyAll(rules, books, [], fetch) == Ledgers.Outcome(books, None)
    ensures fetch(id) == None ==>
              ApplyAll(rules, books, [id], fetch) == Ledgers.Outcome(books, Some(MissingPayload(id)))
  {
  }

  /** Block 2 becomes the best tip: the ledger applies Alice's claim. */
  lemma AppliesTwo(rules: Rules, fetch: Hash -> Option<Payload>) returns (books: Books)
    requires fetch(2) == Some(ClaimBlock(rules, ALICE, 1))
    ensures Follows(rules, ALICE, 1, GENESIS_BOOKS, books)
    ensures Engines.SyncOf(rules, GENESIS_BOOKS, 1, [1, 2], fetch) == Engines.Sync(books, 2, None)
  {
    hide ApplyAll, Claimed;
    books := FoldClaim(rules, GENESIS_BOOKS, ALICE, 1, 2, [], fetch);
    FoldNothing(rules, books, 6, fetch);
    assert [1, 2][1..] == [2] + [];
    Engines.SyncExtends(rules, GENESIS_BOOKS, 1, [1, 2], fetch);
  }

  /** Blocks 3 and 4 change no best tip: nothing is applied. */
  lemma AppliesNothing(rules: Rules, books: Books, fetch: Hash -> Option<Payload>)
    requires books.applied == 2
    ensures Engines.SyncOf(rules, books, 2, [1, 2], fetch) == Engines.Sync(books, 2, None)
  {
    hide ApplyAll;
    FoldNothing(rules, books, 6, fetch);
    assert [1, 2][2..] == [];
    Engines.SyncExtends(rules, books, 2, [1, 2], fetch);
  }

  /** Block 6 is refused after block 4 was applied: the ledger stands at three blocks, the frontier at block 4. */
  lemma StopsAtFour(rules: Rules, books: Books, fetch: Hash -> Option<Payload>) returns (after: Books)
    requires fetch(4) == Some(ClaimBlock(rules, BOB, 1)) && fetch(6) == None && books.applied == 2
    ensures Follows(rules, BOB, 1, books, after)
    ensures Engines.SyncOf(rules, books, 2, [1, 2, 4, 6], fetch) == Engines.Sync(after, 4, Some(MissingPayload(6)))
  {
    hide ApplyAll, Claimed;
    var order := [1, 2, 4, 6];
    after := FoldClaim(rules, books, BOB, 1, 4, [6], fetch);
    FoldNothing(rules, after, 6, fetch);
    assert order[2..] == [4] + [6];
    Engines.SyncExtends(rules, books, 2, order, fetch);
  }

  /** Block 5 is then applied on top, although the ledger never applied block 3. */
  lemma GoesOnFromFour(rules: Rules, books: Books, fetch: Hash -> Option<Payload>) returns (after: Books)
    requires fetch(5) == Some(ClaimBlock(rules, BOB, 2)) && books.applied == 3
    ensures Follows(rules, BOB, 2, books, after)
    ensures Engines.SyncOf(rules, books, 4, [1, 3, 4, 5], fetch) == Engines.Sync(after, 5, None)
  {
    hide ApplyAll, Claimed;
    var order := [1, 3, 4, 5];
    after := FoldClaim(rules, books, BOB, 2, 5, [], fetch);
    FoldNothing(rules, after, 6, fetch);
    assert order[3..] == [5] + [];
    Engines.SyncExtends(rules, books, 4, order, fetch);
  }

  lemma BobTwice(rules: Rules, fetch: Hash -> Option<Payload>) returns (one: Books, two: Books)
    requires fetch(1) == Some(Payload(0, []))
    requires fetch(3) == fetch(4) == Some(ClaimBlock(rules, BOB, 1))
    ensures Follows(rules, BOB, 1, GENESIS_BOOKS, one) && Follows(rules, BOB, 1, one, two)
    ensures ApplyAll(rules, EMPTY_BOOKS, [1, 3, 4, 5], fetch) == ApplyAll(rules, two, [5], fetch)
  {
    hide ApplyAll, Claimed;
    FoldGenesis(rules, [3, 4, 5], fetch);
    one := FoldClaim(rules, GENESIS_BOOKS, BOB, 1, 3, [4, 5], fetch);
    two := FoldClaim(rules, one, BOB, 1, 4, [5], fetch);
    assert [1] + [3, 4, 5] == [1, 3, 4, 5] && [3] + [4, 5] == [3, 4, 5] && [4] + [5] == [4, 5];
  }

  /** The fold over the best order pays Bob alone. */
  lemma BestFold(rules: Rules, fetch: Hash -> Option<Payload>) returns (one: Books, two: Books, end: Books)
    requires fetch(1) == Some(Payload(0, [])) && fetch(5) == Some(ClaimBlock(rules, BOB, 2))
    requires fetch(3) == fetch(4) == Some(ClaimBlock(rules, BOB, 1))
    ensures Follows(rules, BOB, 1, GENESIS_BOOKS, one) && Follows(rules, BOB, 1, one, two)
    ensures Follows(rules, BOB, 2, two, end)
    ensures ApplyAll(rules, EMPTY_BOOKS, [1, 3, 4, 5], fetch) == Ledgers.Outcome(end, None)
  {
    hide ApplyAll, Claimed;
    one, two := BobTwice(rules, fetch);
    end := FoldClaim(rules, two, BOB, 2, 5, [], fetch);
    FoldNothing(rules, end, 6, fetch);
    assert [5] + [] == [5];
  }

  /** Only the ledger that went on holds an output of Alice's block. */
  lemma AliceIsOnOneSide(
    rules: Rules, lost: Hash, books: Books, stopped: Books, wrong: Books, one: Books, two: Books, end: Books)
    requires Follows(rules, ALICE, 1, GENESIS_BOOKS, books) && Follows(rules, BOB, 1, books, stopped)
    requires Follows(rules, BOB, 2, stopped, wrong) && Distinguished(rules, lost)
    requires Follows(rules, BOB, 1, GENESIS_BOOKS, one) && Follows(rules, BOB, 1, one, two)
    requires Follows(rules, BOB, 2, two, end)
    ensures wrong != end
  {
    hide Claim;
    var r := OutputRef(rules.txId(Claim(rules, ALICE, 1)), 0);
    assert r in books.utxos && r in stopped.utxos && r in wrong.utxos;
    assert r !in one.utxos && r !in two.utxos && r !in end.utxos;
  }

  lemma SlotsSoFar(rules: Rules, payee: Address, height: nat, books: Books, next: Books)
    requires Follows(rules, payee, height, books, next)
    ensures next.applied == books.applied + 1
  {
    hide Claimed;
  }

  // ----- the run

  /** What is given to the run. */
  datatype Setting = Setting(rules: Rules, digests: Digests, policy: Policy, lost: Hash)

  ghost predicate Usable(given: Setting) {
    given.policy.difficultyBits == 0 && Distinguished(given.rules, given.lost)
  }

  /** Some digests make the run possible: a payee's key and a height tell the three claims apart. */
  lemma SomeSettingIsUsable(digests: Digests, treasury: Address)
    ensures exists txId: Transaction -> Hash, lost ::
              Usable(Setting(Rules(txId, treasury), digests, Policy(0, 0), lost))
  {
    hide LittleEndian, LittleEndianBytes;
    var txId := (tx: Transaction) =>
      if tx.outputs == [] then 0 else 1000 * tx.outputs[0].address.spend + LittleEndian(tx.extra);
    var rules := Rules(txId, treasury);
    forall height | 1 <= height <= 2 ensures LittleEndian(LittleEndianBytes(height, 8)) == height {
      SmallFits(height);
      LittleEndianOfBytes(height, 8);
    }
    assert Usable(Setting(rules, digests, Policy(0, 0), 0));
  }

  function BlockOf(given: Setting, id: Hash): Block {
    Carried(given.digests, given.rules, given.lost, id)
  }

  /** The graph after one more block of the run. */
  ghost function More(g: Graph, given: Setting, id: Hash): Graph {
    After(g, given.digests, BlockOf(given, id), given.policy, 0)
  }

  /** Whether the next block of the run can be sent. */
  ghost predicate Ready(g: Graph, given: Setting, id: Hash) {
    && id > 1 && id !in g.headers && |g.headers| < Stores.REFERENCE_WINDOW
    && Growth.Outcome(g, given.digests, BlockOf(given, id), given.policy, 0).Success?
  }

  /** The engine midway: its graph, with the lists and the registered bodies, its books and its frontier. */
  ghost predicate Midrun(e: Engines.Engine, given: Setting, g: Graph, books: Books, frontier: Hash)
    reads e, e.store, e.store.reference, e.ledger
  {
    && e.ledger.Value() == books && e.frontier == frontier
    && e.rules == given.rules && e.digests == given.digests && e.policy == given.policy
    && e.txs == Registered(given.rules) && e.store.View() == g
    && Listed(g, e.store.nodes, given.rules, given.lost) && Levels(g) && e.Running()
  }

  /** What one insertion does to books and frontier, given the graph and the payloads it leads to. */
  ghost predicate Synchronised(
    given: Setting, h: Graph, fetch: Hash -> Option<Payload>, books: Books, frontier: Hash, s: Engines.Sync)
  {
    && h.Valid() && books.applied >= 1 && Bodies(given.rules, h, fetch)
    && BestTip(h) in h.headers && h.Order(BestTip(h)) != []
    && s == Engines.SyncOf(given.rules, books, frontier, h.Order(BestTip(h)), fetch)
  }

  function Answer(id: Hash, refusal: Option<StateError>): Result<Hash, Engines.Breach> {
    if refusal.Some? then Failure(Engines.Ledger(refusal.value)) else Success(id)
  }

  /** One insertion of the run. */
  method Send(e: Engines.Engine, id: Hash, given: Setting, ghost g: Graph, ghost books: Books, ghost frontier: Hash)
    returns (r: Result<Hash, Engines.Breach>, ghost fetch: Hash -> Option<Payload>, ghost s: Engines.Sync)
    requires Usable(given) && Ready(g, given, id) && Midrun(e, given, g, books, frontier)
    modifies e`checks, e`frontier, e`ledger, e`rebuilds, e.ledger, e.store, e.store.reference
    ensures e.ledger == old(e.ledger) || fresh(e.ledger)
    ensures e.store.reference == old(e.store.reference) || e.store.reference == null
    ensures r == Answer(id, s.refusal) && fetch == Engines.Fetch(e.store.nodes, e.txs)
    ensures Synchronised(given, More(g, given, id), fetch, books, frontier, s)
    ensures Midrun(e, given, More(g, given, id), s.books, s.frontier)
  {
    hide *;
    var block := BlockOf(given, id);
    ghost var nodes := e.store.nodes;
    UsableParts(given);
    ReadyParts(g, given, id);
    MidrunParts(e, given, g, books, frontier);
    CarriedParts(given, id);
    StoreAccepts(g, given, id);
    r := e.InsertBlock(block);
    fetch := Engines.Fetch(e.store.nodes, e.txs);
    Inserted(e);
    ghost var h := More(g, given, id);
    ListedGrows(g, nodes, h, e.store.nodes, given.digests, given.rules, given.lost, id);
    ListedBodies(h, e.store.nodes, given.rules, given.lost);
    s := Engines.SyncOf(given.rules, books, frontier, e.store.order, fetch);
    AnswerIs(id, s.refusal);
    SynchronisedWhole(given, h, fetch, books, frontier, s);
    MidrunWhole(e, given, h, s.books, s.frontier);
  }

  lemma UsableParts(given: Setting)
    requires Usable(given)
    ensures given.policy.difficultyBits == 0 && Distinguished(given.rules, given.lost)
  {
    hide Distinguished;
  }

  lemma ReadyParts(g: Graph, given: Setting, id: Hash)
    requires Ready(g, given, id)
    ensures id > 1 && id !in g.headers && |g.headers| < Stores.REFERENCE_WINDOW
    ensures Growth.Outcome(g, given.digests, BlockOf(given, id), given.policy, 0).Success?
  {
    hide Growth.Outcome, BlockOf;
  }

  lemma CarriedParts(given: Setting, id: Hash)
    ensures var block := BlockOf(given, id);
            && block == Carried(given.digests, given.rules, given.lost, id)
            && block.id == id && |block.header.parents| > 0 && block.header.timestamp == 0
  {
    hide ListOf;
  }

  lemma StoreAccepts(g: Graph, given: Setting, id: Hash)
    requires Growth.Outcome(g, given.digests, BlockOf(given, id), given.policy, 0).Success?
    requires |g.headers| < Stores.REFERENCE_WINDOW
    ensures var block := BlockOf(given, id);
            && Stores.StoreOutcome(g, given.digests, block, given.policy, 0) == Success(block.id)
            && More(g, given, id) == Growth.Grown(g, block.id, block.header)
  {
    hide Refusal, BlockOf;
  }

  lemma MidrunParts(e: Engines.Engine, given: Setting, g: Graph, books: Books, frontier: Hash)
    requires Midrun(e, given, g, books, frontier)
    ensures e.ledger.Value() == books && e.frontier == frontier && books.applied >= 1
    ensures e.rules == given.rules && e.digests == given.digests && e.policy == given.policy
    ensures e.txs == Registered(given.rules) && e.store.View() == g
    ensures Listed(g, e.store.nodes, given.rules, given.lost) && Levels(g) && e.Running()
  {
    hide Listed, Levels, Registered;
  }

  lemma MidrunWhole(e: Engines.Engine, given: Setting, g: Graph, books: Books, frontier: Hash)
    requires e.ledger.Value() == books && e.frontier == frontier
    requires e.rules == given.rules && e.digests == given.digests && e.policy == given.policy
    requires e.txs == Registered(given.rules) && e.store.View() == g
    requires Listed(g, e.store.nodes, given.rules, given.lost) && Levels(g) && e.Running()
    ensures Midrun(e, given, g, books, frontier)
  {
    hide Listed, Levels, Registered;
  }

  lemma AnswerIs(id: Hash, refusal: Option<StateError>)
    ensures Answer(id, refusal) == if refusal.Some? then Failure(Engines.Ledger(refusal.value)) else Success(id)
  {
  }

  lemma SynchronisedWhole(
    given: Setting, h: Graph, fetch: Hash -> Option<Payload>, books: Books, frontier: Hash, s: Engines.Sync)
    requires h.Valid() && books.applied >= 1 && Bodies(given.rules, h, fetch)
    requires BestTip(h) in h.headers && h.Order(BestTip(h)) != []
    requires s == Engines.SyncOf(given.rules, books, frontier, h.Order(BestTip(h)), fetch)
    ensures Synchronised(given, h, fetch, books, frontier, s)
  {
    hide Graph.Valid, Graph.Order, Bodies, Engines.SyncOf;
  }

  lemma SynchronisedParts(
    given: Setting, h: Graph, fetch: Hash -> Option<Payload>, books: Books, frontier: Hash, s: Engines.Sync)
    requires Synchronised(given, h, fetch, books, frontier, s)
    ensures h.Valid() && books.applied >= 1 && Bodies(given.rules, h, fetch)
    ensures BestTip(h) in h.headers && h.Order(BestTip(h)) != []
    ensures s == Engines.SyncOf(given.rules, books, frontier, h.Order(BestTip(h)), fetch)
  {
    hide Graph.Valid, Graph.Order, Bodies, Engines.SyncOf;
  }

  lemma Inserted(e: Engines.Engine)
    requires e.Running()
    ensures e.store.View().Valid() && e.store.View().headers == Stores.Headers(e.store.nodes)
    ensures BestTip(e.store.View()) in e.store.View().headers
    ensures e.store.orderTip == BestTip(e.store.View())
    ensures e.store.order == e.store.View().Order(e.store.orderTip)
  {
    hide Graph.Order, Graph.Valid;
    Stores.Parts(e.store);
  }

  // ----- the graphs the run goes through

  lemma FewHeaders(g: Graph)
    requires g.headers.Keys <= {1, 2, 3, 4, 5, 6}
    ensures |g.headers| < Stores.REFERENCE_WINDOW
  {
    CardinalityMonotone(g.headers.Keys, {1, 2, 3, 4, 5, 6});
    assert |g.headers| == |g.headers.Keys|;
  }

  /** Ids of blocks that stand on the genesis. */
  ghost predicate Inside(ids: set<Hash>) {
    forall i | i in ids :: 2 <= i <= 4
  }

  lemma ForkReady(g: Graph, ids: set<Hash>, given: Setting, id: Hash)
    requires Fork(g, ids) && Inside(ids) && 2 <= id <= 4 && id !in ids && given.policy.difficultyBits == 0
    ensures Ready(g, given, id) && Fork(More(g, given, id), ids + {id}) && Inside(ids + {id})
  {
    hide Growth.Outcome, After, Derives, OnGenesis, Graph.Tips, ListOf, Timeless;
    FewHeaders(g);
    ForkStep(g, ids, given.digests, given.policy, id, ListOf(given.rules, given.lost, id));
  }

  lemma HalfReady(g: Graph, given: Setting)
    requires Fork(g, {2, 3, 4}) && given.policy.difficultyBits == 0
    ensures Ready(g, given, 6) && Halfway(More(g, given, 6))
  {
    hide Growth.Outcome, After, Derives, OnGenesis, Graph.Tips, ListOf, Joins, Timeless;
    FewHeaders(g);
    HalfStep(g, given.digests, given.policy, ListOf(given.rules, given.lost, 6));
  }

  lemma LastReady(g: Graph, given: Setting)
    requires Halfway(g) && given.policy.difficultyBits == 0
    ensures Ready(g, given, 5) && Stalling(More(g, given, 5))
  {
    hide Growth.Outcome, After, Derives, OnGenesis, Graph.Tips, ListOf, Joins, Timeless;
    FewHeaders(g);
    LastStep(g, given.digests, given.policy, ListOf(given.rules, given.lost, 5));
  }

  // ----- what each insertion does

  /** Block 2 becomes the best tip, and the ledger applies it. */
  lemma SyncTwo(given: Setting, h: Graph, fetch: Hash -> Option<Payload>, s: Engines.Sync)
    requires Fork(h, {2}) && Synchronised(given, h, fetch, GENESIS_BOOKS, 1, s)
    ensures s.refusal == None && s.frontier == 2 && s.books.applied == 2
    ensures Follows(given.rules, ALICE, 1, GENESIS_BOOKS, s.books)
  {
    hide *;
    SynchronisedParts(given, h, fetch, GENESIS_BOOKS, 1, s);
    BestFork(h, {2}, 2);
    ForkBodies(given.rules, h, {2}, fetch);
    var books := AppliesTwo(given.rules, fetch);
    SlotsSoFar(given.rules, ALICE, 1, GENESIS_BOOKS, books);
    GenesisSlot();
  }

  /** Block 2 stays the best tip, and the ledger stays where it is. */
  lemma SyncSibling(
    given: Setting, h: Graph, ids: set<Hash>, fetch: Hash -> Option<Payload>, books: Books, s: Engines.Sync)
    requires Fork(h, ids) && Inside(ids) && 2 in ids && books.applied == 2
    requires Synchronised(given, h, fetch, books, 2, s)
    ensures s == Engines.Sync(books, 2, None)
  {
    hide *;
    SynchronisedParts(given, h, fetch, books, 2, s);
    assert forall i | i in ids :: 2 <= i by {
      InsideParts(ids);
    }
    BestFork(h, ids, 2);
    AppliesNothing(given.rules, books, fetch);
  }

  lemma InsideParts(ids: set<Hash>)
    requires Inside(ids)
    ensures forall i | i in ids :: 2 <= i
  {
  }

  /** Block 6 becomes the best tip, and is refused after block 4 was applied. */
  lemma SyncSix(given: Setting, h: Graph, fetch: Hash -> Option<Payload>, books: Books, s: Engines.Sync)
    requires Halfway(h) && Synchronised(given, h, fetch, books, 2, s) && books.applied == 2
    ensures s.refusal == Some(MissingPayload(6)) && s.frontier == 4 && s.books.applied == 3
    ensures Follows(given.rules, BOB, 1, books, s.books)
  {
    hide *;
    SynchronisedParts(given, h, fetch, books, 2, s);
    HalfwayParts(h);
    HalfBodies(given.rules, h, fetch);
    var stopped := StopsAtFour(given.rules, books, fetch);
    SlotsSoFar(given.rules, BOB, 1, books, stopped);
  }

  /** Block 5 becomes the best tip, and the lookup hits block 4 off its chain. */
  lemma SyncFive(given: Setting, h: Graph, fetch: Hash -> Option<Payload>, books: Books, s: Engines.Sync)
    returns (one: Books, two: Books, end: Books)
    requires Stalling(h) && Synchronised(given, h, fetch, books, 4, s) && books.applied == 3
    ensures s.refusal == None && s.frontier == 5 && Follows(given.rules, BOB, 2, books, s.books)
    ensures Follows(given.rules, BOB, 1, GENESIS_BOOKS, one) && Follows(given.rules, BOB, 1, one, two)
    ensures Follows(given.rules, BOB, 2, two, end)
    ensures h.Valid() && BestTip(h) in h.headers && BestTip(h) == 5
    ensures ApplyAll(given.rules, EMPTY_BOOKS, h.Order(BestTip(h)), fetch) == Ledgers.Outcome(end, None)
  {
    hide *;
    SynchronisedParts(given, h, fetch, books, 4, s);
    StallingParts(h);
    LastBodies(given.rules, h, fetch);
    var wrong := GoesOnFromFour(given.rules, books, fetch);
    one, two, end := BestFold(given.rules, fetch);
  }

  lemma ForkBodies(rules: Rules, g: Graph, ids: set<Hash>, fetch: Hash -> Option<Payload>)
    requires Fork(g, ids) && 2 in ids && Bodies(rules, g, fetch)
    ensures fetch(2) == Some(ClaimBlock(rules, ALICE, 1))
  {
    hide Derives, OnGenesis, Graph.Tips;
  }

  lemma HalfBodies(rules: Rules, g: Graph, fetch: Hash -> Option<Payload>)
    requires Halfway(g) && Bodies(rules, g, fetch)
    ensures fetch(4) == Some(ClaimBlock(rules, BOB, 1)) && fetch(6) == None
  {
    hide OnGenesis, Joins, Graph.Tips;
  }

  lemma LastBodies(rules: Rules, g: Graph, fetch: Hash -> Option<Payload>)
    requires Stalling(g) && Bodies(rules, g, fetch)
    ensures fetch(1) == Some(Payload(0, [])) && fetch(5) == Some(ClaimBlock(rules, BOB, 2))
    ensures fetch(3) == fetch(4) == Some(ClaimBlock(rules, BOB, 1))
  {
    hide OnGenesis, Joins, Graph.Tips;
  }

  lemma GenesisSlot()
    ensures GENESIS_BOOKS.applied == 1
  {
  }

  // ----- the whole run

  lemma GenesisCarried(given: Setting)
    ensures var genesis := BlockOf(given, 1);
            && genesis == Carried(given.digests, given.rules, given.lost, 1)
            && genesis.id == 1 && genesis.txIds == [] && genesis.header.height == 0
  {
  }

  /** The engine once it has booted and been given the bodies. */
  lemma Booted(e: Engines.Engine, given: Setting)
    requires e.Running() && e.rules == given.rules && e.digests == given.digests && e.policy == given.policy
    requires e.txs == Registered(given.rules) && e.ledger.Value() == GENESIS_BOOKS && e.frontier == 1
    requires e.store.View() == Stores.Root(BlockOf(given, 1)) && 1 in e.store.nodes && e.store.nodes[1].txIds == []
    ensures Midrun(e, given, Stores.Root(BlockOf(given, 1)), GENESIS_BOOKS, 1)
  {
    hide Registered, Graph.Valid;
    Inserted(e);
    RootIsListed(e.store.View(), e.store.nodes, given);
  }

  lemma RootIsListed(g: Graph, nodes: map<Hash, Stores.NodeData>, given: Setting)
    requires g == Stores.Root(BlockOf(given, 1)) && g.headers == Stores.Headers(nodes)
    requires 1 in nodes && nodes[1].txIds == []
    ensures Listed(g, nodes, given.rules, given.lost) && Levels(g)
  {
    assert forall id | id in nodes :: id in g.headers;
  }

  lemma SyncedRuns(e: Engines.Engine)
    requires e.Synced()
    ensures e.Running()
  {
    hide Engines.Settled;
  }

  lemma Registering(rules: Rules)
    ensures var alice, bob, later := Claim(rules, ALICE, 1), Claim(rules, BOB, 1), Claim(rules, BOB, 2);
            Registered(rules) == map[][rules.txId(alice) := alice][rules.txId(bob) := bob][rules.txId(later) := later]
  {
  }

  /** Boots on the genesis and registers the three bodies. */
  method BootRun(given: Setting) returns (e: Engines.Engine)
    ensures fresh(e) && fresh(e.store) && fresh(e.ledger) && (e.store.reference != null ==> fresh(e.store.reference))
    ensures Midrun(e, given, Stores.Root(BlockOf(given, 1)), GENESIS_BOOKS, 1)
  {
    hide *;
    var rules, genesis := given.rules, BlockOf(given, 1);
    GenesisCarried(given);
    RootForks(given.digests, given.rules, given.lost);
    var booted := Engines.Engine.Boot(rules, given.digests, given.policy, genesis);
    e := booted.value;
    SyncedRuns(e);
    e.RegisterPayload(Claim(rules, ALICE, 1));
    e.RegisterPayload(Claim(rules, BOB, 1));
    e.RegisterPayload(Claim(rules, BOB, 2));
    Registering(rules);
    Booted(e, given);
  }

  /** The first three insertions: blocks 2, 3 and 4 on the genesis. */
  method SendFork(e: Engines.Engine, given: Setting)
    returns (results: seq<Result<Hash, Engines.Breach>>, ghost g: Graph, ghost books: Books)
    requires Usable(given) && Midrun(e, given, Stores.Root(BlockOf(given, 1)), GENESIS_BOOKS, 1)
    modifies e`checks, e`frontier, e`ledger, e`rebuilds, e.ledger, e.store, e.store.reference
    ensures e.ledger == old(e.ledger) || fresh(e.ledger)
    ensures e.store.reference == old(e.store.reference) || e.store.reference == null
    ensures results == [Success(2), Success(3), Success(4)]
    ensures books.applied == 2 && Follows(given.rules, ALICE, 1, GENESIS_BOOKS, books)
    ensures Fork(g, {2, 3, 4}) && Midrun(e, given, g, books, 2)
  {
    hide *;
    var two, three, four;
    ghost var fetch, s;
    g := Stores.Root(BlockOf(given, 1));
    GenesisCarried(given);
    UsableParts(given);
    RootForks(given.digests, given.rules, given.lost);
    assert Inside({}) by {
      NoneInside();
    }
    assert {} + {2} == {2 as Hash} && {2 as Hash} + {3} == {2, 3} && {2 as Hash, 3} + {4} == {2, 3, 4};
    ForkReady(g, {}, given, 2);
    two, fetch, s := Send(e, 2, given, g, GENESIS_BOOKS, 1);
    g := More(g, given, 2);
    SyncTwo(given, g, fetch, s);
    AnswerIs(2, None);
    books := s.books;
    ForkReady(g, {2}, given, 3);
    three, fetch, s := Send(e, 3, given, g, books, 2);
    g := More(g, given, 3);
    SyncSibling(given, g, {2, 3}, fetch, books, s);
    AnswerIs(3, None);
    ForkReady(g, {2, 3}, given, 4);
    four, fetch, s := Send(e, 4, given, g, books, 2);
    g := More(g, given, 4);
    SyncSibling(given, g, {2, 3, 4}, fetch, books, s);
    AnswerIs(4, None);
    results := [two, three, four];
  }

  lemma NoneInside()
    ensures Inside({})
  {
  }

  lemma ReadsBest(e: Engines.Engine, given: Setting, g: Graph, books: Books, frontier: Hash)
    requires Midrun(e, given, g, books, frontier)
    ensures e.ledger.Value() == books && e.frontier == frontier
    ensures g.Valid() && BestTip(g) in g.headers
    ensures e.store.orderTip == BestTip(g) && e.store.order == g.Order(BestTip(g))
  {
    hide *;
    MidrunParts(e, given, g, books, frontier);
    Inserted(e);
  }

  /**
   A success on a wrong ledger. Block 6 becomes the best tip and is refused in mid-suffix: the frontier is left at the
   merged block 4, whose order has two blocks, beside a ledger of three. Block 5 then becomes the best tip, and block 4
   stands in its order where the lookup looks, without being on its chain: the engine applies block 5 alone and reports
   success, on books that are not those of the best order. The six headers differ, so some header digest gives the ids.
   */
  method StalledRun(given: Setting) returns (e: Engines.Engine, results: seq<Result<Hash, Engines.Breach>>)
    requires Usable(given)
    ensures results ==
            [Success(2), Success(3), Success(4), Failure(Engines.Ledger(MissingPayload(6))), Success(5)]
    ensures e.rules == given.rules && e.frontier == e.store.orderTip == 5
    ensures var whole := ApplyAll(e.rules, EMPTY_BOOKS, e.store.order, Engines.Fetch(e.store.nodes, e.txs));
            whole.refusal.None? && e.ledger.Value() != whole.books
    ensures HeadersApart(BlockOf(given, 1), StallingRun(given.digests, given.policy, given.rules, given.lost))
    ensures exists headerId :: Addressed(BlockOf(given, 1),
                                         StallingRun(given.digests, given.policy, given.rules, given.lost), headerId)
  {
    hide *;
    GenesisCarried(given);
    StallingIds(given.digests, given.policy, given.rules, given.lost);
    UsableParts(given);
    e := BootRun(given);
    var six, five;
    ghost var g, books, fetch, stopped, last;
    results, g, books := SendFork(e, given);
    HalfReady(g, given);
    six, fetch, stopped := Send(e, 6, given, g, books, 2);
    g := More(g, given, 6);
    SyncSix(given, g, fetch, books, stopped);
    AnswerIs(6, stopped.refusal);
    LastReady(g, given);
    five, fetch, last := Send(e, 5, given, g, stopped.books, 4);
    g := More(g, given, 5);
    ghost var once, twice, end := SyncFive(given, g, fetch, stopped.books, last);
    AnswerIs(5, last.refusal);
    AliceIsOnOneSide(given.rules, given.lost, books, stopped.books, last.books, once, twice, end);
    ReadsBest(e, given, g, last.books, 5);
    MidrunParts(e, given, g, last.books, 5);
    results := results + [six, five];
  }
}
