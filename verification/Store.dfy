/**
 The node store, the production form of the reference DAG: scores, selected parents and fresh sets per
 block, no closures. A single-parent block is colored in constant time; a merge copies the answers of
 a live mirror of the reference while the block count is inside the window. The consensus order of the
 best tip is materialized and extended or rebuilt after every insertion.
 */
module Stores {
  import opened Wrappers
  import opened Maps
  import opened Ranking
  import opened Words
  import opened Blocks
  import opened Graphs
  import opened Ancestry
  import opened Growth
  import opened Ordering
  import Dags

  /** The number of accepted blocks for which the reference mirror is kept. */
  const REFERENCE_WINDOW: nat := 1024

  /** The bound on the selected-parent walk before the materialized order is rebuilt. */
  const MAX_ORDER_WALK: nat := REFERENCE_WINDOW

  datatype NodeError =
    | Rule(error: DagError)
    | MergeBeyondWindow(parents: nat, window: nat)

  datatype NodeData = NodeData(
    header: Header,
    txIds: seq<Hash>,
    blueScore: nat,
    selectedParent: Option<Hash>,
    children: set<Hash>,
    added: seq<Hash>,
    orderLen: nat)

  /** What the store keeps for a held block: the derived state of the graph, without its closures. */
  ghost function Kept(g: Graph, b: Hash, txIds: seq<Hash>): NodeData
    requires g.Valid() && b in g.headers
  {
    NodeData(g.headers[b], txIds, g.Score(b), if b == g.genesis then None else Some(g.SelectedParent(b)),
             g.Children(b), g.Fresh(b), |g.Order(b)|)
  }

  ghost predicate AllKept(g: Graph, nodes: map<Hash, NodeData>)
    requires g.Valid()
  {
    && nodes.Keys == g.headers.Keys
    && forall b {:trigger Kept(g, b, nodes[b].txIds)} | b in nodes :: nodes[b] == Kept(g, b, nodes[b].txIds)
  }

  ghost function Headers(nodes: map<Hash, NodeData>): (r: map<Hash, Header>)
    ensures r.Keys == nodes.Keys
    ensures forall b | b in nodes :: r[b] == nodes[b].header
  {
    Mapped(nodes, (node: NodeData) => node.header)
  }

  /** Positions and order are inverse to one another. */
  ghost predicate Indexed(order: seq<Hash>, positions: map<Hash, nat>) {
    && positions.Keys == Elements(order)
    && forall i | 0 <= i < |order| :: positions[order[i]] == i
  }

  ghost function ViewOf(genesis: Hash, nodes: map<Hash, NodeData>): (g: Graph)
    ensures g.genesis == genesis && g.headers.Keys == nodes.Keys
  {
    Graph(genesis, Headers(nodes))
  }

  /** Nodes and tips hold the derived state of the accepted headers. */
  ghost predicate Sound(g: Graph, nodes: map<Hash, NodeData>, tips: set<Hash>) {
    g.Valid() && AllKept(g, nodes) && tips == g.Tips()
  }

  /** A listing is the consensus order of a tip, indexed by its exact inverse. */
  ghost predicate Materializes(g: Graph, tip: Hash, order: seq<Hash>, positions: map<Hash, nat>)
    requires g.Valid()
  {
    tip in g.headers && order == g.Order(tip) && Indexed(order, positions)
  }

  /** The verdict of inserting a block into the store. */
  function StoreOutcome(g: Graph, digests: Digests, block: Block, policy: Policy, nowMs: nat): Result<Hash, NodeError> {
    match Outcome(g, digests, block, policy, nowMs)
    case Failure(e) => Failure(Rule(e))
    case Success(id) =>
      if |block.header.parents| != 1 && |g.headers| >= REFERENCE_WINDOW
      then Failure(MergeBeyondWindow(|block.header.parents|, REFERENCE_WINDOW))
      else Success(id)
  }

  ghost function StoreAfter(g: Graph, digests: Digests, block: Block, policy: Policy, nowMs: nat): Graph {
    if StoreOutcome(g, digests, block, policy, nowMs).Success? then Grown(g, block.id, block.header) else g
  }

  ghost function Root(block: Block): Graph {
    Graph(block.id, map[block.id := block.header])
  }

  /** The graph of the genesis alone. */
  lemma SoloGraph(id: Hash, header: Header, txIds: seq<Hash>)
    requires header.height == 0
    ensures var g := Graph(id, map[id := header]);
            && g.Valid() && g.Tips() == {id} && BestTip(g) == id && g.Order(id) == [id]
            && Kept(g, id, txIds) == NodeData(header, txIds, 1, None, {}, [id], 1)
  {
    var g := Graph(id, map[id := header]);
    assert g.Valid();
    assert g.Tips() == {id};
    assert g.Children(id) == {};
  }

  // ----- the chain path

  lemma RootIsSolo(block: Block)
    requires block.header.height == 0
    ensures Root(block).Valid() && Root(block).genesis == block.id && block.id in Root(block).headers
    ensures BestTip(Root(block)) == block.id && Root(block).Order(block.id) == [block.id]
  {
    SoloGraph(block.id, block.header, block.txIds);
  }

  lemma SingleParentPast(g: Graph, p: Hash)
    requires g.Valid() && p in g.headers
    ensures g.SelectedOver([p]) == p
    ensures g.PastOver([p]) == g.View(p)
  {
    assert [p][..0] == [];
  }

  lemma SingleParentQueue(g: Graph, p: Hash)
    requires g.Valid() && p in g.headers
    ensures g.QueueOver([p]) == []
  {
    SingleParentPast(g, p);
    assert Elements(g.QueueOver([p])) == {};
    EmptyListing(g.QueueOver([p]));
  }

  /** A single parent leaves nothing to color. */
  lemma SingleParentBlues(g: Graph, p: Hash)
    requires g.Valid() && p in g.headers
    ensures g.BluesOver([p]) == g.Blues(p) + {p} && p !in g.Blues(p)
  {
    SingleParentPast(g, p);
    SingleParentQueue(g, p);
  }

  lemma EmptyListing(r: seq<Hash>)
    requires Elements(r) == {}
    ensures r == []
  {
    if |r| > 0 {
      HeadListed(r);
    }
  }

  lemma HeadListed(r: seq<Hash>)
    requires |r| > 0
    ensures r[0] in Elements(r)
  {
  }

  lemma SoloListing(b: Hash, rank: map<Hash, int>)
    requires b in rank
    ensures Sorted({b}, rank) == [b]
  {
    SortedUnique([b], {b}, rank);
  }

  /** A block whose view adds itself alone is its own fresh set. */
  lemma ChainFresh(g: Graph, b: Hash)
    requires g.Valid() && g.Child(b) && |g.headers[b].parents| == 1
    ensures g.Fresh(b) == [b]
  {
    var p := g.headers[b].parents[0];
    assert p in g.headers[b].parents && g.headers[b].parents == [p];
    SingleParentPast(g, p);
    var news := g.View(b) - g.View(g.SelectedParent(b));
    assert news == {b};
    SoloListing(b, g.Heights(news));
  }

  // ----- what a new block adds to the table

  /** What the store must keep for a block about to be accepted. */
  ghost function KeptNew(g: Graph, block: Block): NodeData
    requires g.Valid() && Acceptable(g, block.id, block.header)
  {
    GrownIsValid(g, block.id, block.header);
    Kept(Grown(g, block.id, block.header), block.id, block.txIds)
  }

  lemma NewOrder(g: Graph, h: Graph, id: Hash)
    requires g.Valid() && h.Valid() && Extends(g, h) && h.Child(id)
    requires h.SelectedParent(id) in g.headers
    ensures h.Order(id) == g.Order(h.SelectedParent(id)) + h.Fresh(id)
  {
    OrderStep(h, id);
    OrderStable(g, h, h.SelectedParent(id));
  }

  /** The chain path: score, order length and fresh set in constant time. */
  lemma ChainPath(g: Graph, block: Block, p: Hash)
    requires g.Valid() && Acceptable(g, block.id, block.header) && block.header.parents == [p]
    ensures p in g.headers && KeptNew(g, block) ==
            NodeData(block.header, block.txIds, g.Score(p) + 1, Some(p), {}, [block.id], |g.Order(p)| + 1)
  {
    assert p in block.header.parents;
    var h := Grown(g, block.id, block.header);
    GrownIsValid(g, block.id, block.header);
    ChainScore(g, block.id, block.header, p);
    ChainSelected(g, block.id, block.header, p);
    NewHasNoChild(g, block.id, block.header);
    ChainFresh(h, block.id);
    NewOrder(g, h, block.id);
  }

  lemma ChainScore(g: Graph, id: Hash, header: Header, p: Hash)
    requires g.Valid() && Acceptable(g, id, header) && header.parents == [p] && p in g.headers
    ensures Grown(g, id, header).Valid() && Grown(g, id, header).Score(id) == g.Score(p) + 1
  {
    SingleParentBlues(g, p);
    Dags.NewBlues(g, id, header);
  }

  lemma ChainSelected(g: Graph, id: Hash, header: Header, p: Hash)
    requires g.Valid() && Acceptable(g, id, header) && header.parents == [p] && p in g.headers
    ensures Grown(g, id, header).Valid() && Grown(g, id, header).SelectedParent(id) == p
  {
    SingleParentPast(g, p);
    Dags.NewSelected(g, id, header);
  }

  /** The fork path: the fresh set is the order of the merge beyond its selected parent's. */
  lemma ForkPath(h: Graph, id: Hash)
    requires h.Valid() && h.Child(id)
    ensures var base := h.Order(h.SelectedParent(id));
            |base| <= |h.Order(id)| && h.Fresh(id) == h.Order(id)[|base|..]
  {
    OrderStep(h, id);
  }

  // ----- the table after an insertion

  function Adopted(data: NodeData, b: Hash, id: Hash, parents: seq<Hash>): NodeData {
    if b in parents then data.(children := data.children + {id}) else data
  }

  ghost predicate Relinked(before: map<Hash, NodeData>, after: map<Hash, NodeData>, id: Hash, parents: seq<Hash>) {
    && after.Keys == before.Keys + {id}
    && forall b | b in before && b != id :: after[b] == Adopted(before[b], b, id, parents)
  }

  lemma KeptStable(g: Graph, h: Graph, b: Hash, txIds: seq<Hash>)
    requires g.Valid() && h.Valid() && Extends(g, h) && b in g.headers
    ensures Kept(h, b, txIds) == Kept(g, b, txIds).(children := h.Children(b))
  {
    ScoreStable(g, h, b);
    FreshStable(g, h, b);
    OrderStable(g, h, b);
    if b != g.genesis {
      SelectedStable(g, h, b);
    }
  }

  lemma StillKept(g: Graph, id: Hash, header: Header, b: Hash, txIds: seq<Hash>)
    requires g.Valid() && Acceptable(g, id, header) && b in g.headers
    ensures Grown(g, id, header).Valid()
    ensures Kept(Grown(g, id, header), b, txIds) == Adopted(Kept(g, b, txIds), b, id, header.parents)
  {
    GrownIsValid(g, id, header);
    KeptStable(g, Grown(g, id, header), b, txIds);
    ChildrenGrow(g, id, header, b);
  }

  lemma OneKept(g: Graph, block: Block, before: map<Hash, NodeData>, after: map<Hash, NodeData>, b: Hash)
    requires g.Valid() && Acceptable(g, block.id, block.header) && AllKept(g, before)
    requires Relinked(before, after, block.id, block.header.parents) && after[block.id] == KeptNew(g, block)
    requires b in after && Grown(g, block.id, block.header).Valid()
    ensures after[b] == Kept(Grown(g, block.id, block.header), b, after[b].txIds)
  {
    if b != block.id {
      assert before[b] == Kept(g, b, before[b].txIds);
      StillKept(g, block.id, block.header, b, before[b].txIds);
    }
  }

  lemma AcceptKept(g: Graph, block: Block, before: map<Hash, NodeData>, after: map<Hash, NodeData>)
    requires g.Valid() && Acceptable(g, block.id, block.header) && AllKept(g, before)
    requires Relinked(before, after, block.id, block.header.parents) && after[block.id] == KeptNew(g, block)
    requires Grown(g, block.id, block.header).Valid()
    ensures AllKept(Grown(g, block.id, block.header), after)
  {
    var h := Grown(g, block.id, block.header);
    assert after.Keys == h.headers.Keys;
    forall b {:trigger Kept(h, b, after[b].txIds)} | b in after ensures after[b] == Kept(h, b, after[b].txIds) {
      OneKept(g, block, before, after, b);
    }
  }

  lemma HeadersAccept(before: map<Hash, NodeData>, after: map<Hash, NodeData>, id: Hash, parents: seq<Hash>)
    requires id !in before && Relinked(before, after, id, parents)
    ensures Headers(after) == Headers(before)[id := after[id].header]
  {
  }

  lemma RelinkedAfter(before: map<Hash, NodeData>, linked: map<Hash, NodeData>, id: Hash, data: NodeData)
    requires id !in before && linked.Keys == before.Keys
    requires forall b | b in linked :: linked[b] == Adopted(before[b], b, id, data.header.parents)
    ensures Relinked(before, linked[id := data], id, data.header.parents)
  {
  }

  /** The payload ids of a new block join the table; those of held blocks stay as they were. */
  ghost predicate Recorded(before: map<Hash, NodeData>, after: map<Hash, NodeData>, block: Block) {
    && block.id in after && after[block.id].txIds == block.txIds
    && forall b | b in before && b != block.id :: b in after && after[b].txIds == before[b].txIds
  }

  lemma RecordedAfter(before: map<Hash, NodeData>, linked: map<Hash, NodeData>, block: Block, data: NodeData)
    requires linked.Keys == before.Keys && data.txIds == block.txIds
    requires forall b | b in linked :: linked[b] == Adopted(before[b], b, block.id, block.header.parents)
    ensures Recorded(before, linked[block.id := data], block)
  {
  }

  lemma NewKeepsBody(g: Graph, block: Block)
    requires g.Valid() && Acceptable(g, block.id, block.header)
    ensures KeptNew(g, block).txIds == block.txIds
  {
  }

  lemma ParentsAreHeld(genesis: Hash, nodes: map<Hash, NodeData>, block: Block)
    requires Acceptable(ViewOf(genesis, nodes), block.id, block.header)
    ensures ViewOf(genesis, nodes).headers == Headers(nodes)
    ensures forall p | p in block.header.parents :: p in nodes
  {
  }

  /** Accepting a block keeps the table and the tips sound, and the materialized order that of the old tip. */
  lemma SoundAccept(g: Graph, block: Block, before: map<Hash, NodeData>, linked: map<Hash, NodeData>, tips: set<Hash>)
    requires Sound(g, before, tips) && g.headers == Headers(before) && Acceptable(g, block.id, block.header)
    requires linked.Keys == before.Keys
    requires forall b | b in linked :: linked[b] == Adopted(before[b], b, block.id, block.header.parents)
    ensures var after := linked[block.id := KeptNew(g, block)];
            && ViewOf(g.genesis, after) == Grown(g, block.id, block.header)
            && Sound(Grown(g, block.id, block.header), after, tips - Elements(block.header.parents) + {block.id})
  {
    GrownIsValid(g, block.id, block.header);
    RelinkedAfter(before, linked, block.id, KeptNew(g, block));
    AcceptKept(g, block, before, linked[block.id := KeptNew(g, block)]);
    TipsGrow(g, block.id, block.header);
    HeadersAccept(before, linked[block.id := KeptNew(g, block)], block.id, block.header.parents);
  }

  // ----- walks along the selected-parent chain

  /** A stack of fresh sets popped into one listing: the last pushed comes first. */
  ghost function Unstacked(stack: seq<seq<Hash>>): seq<Hash> {
    if |stack| == 0 then [] else stack[|stack| - 1] + Unstacked(stack[..|stack| - 1])
  }

  lemma UnstackedPush(stack: seq<seq<Hash>>, top: seq<Hash>)
    ensures Unstacked(stack + [top]) == top + Unstacked(stack)
  {
    assert (stack + [top])[..|stack|] == stack;
  }

  lemma NothingUnstacked(stack: seq<seq<Hash>>)
    requires stack == []
    ensures Unstacked(stack) == []
  {
  }

  lemma NothingIndexed()
    ensures Indexed([], map[])
  {
  }

  lemma IndexedMaterializes(g: Graph, tip: Hash, order: seq<Hash>, positions: map<Hash, nat>)
    requires g.Valid() && tip in g.headers && order == g.Order(tip) && Indexed(order, positions)
    ensures Materializes(g, tip, order, positions)
  {
  }

  /** One step of a walk: the order of a block is its selected parent's, then its fresh set. */
  lemma WalkStep(g: Graph, b: Hash, current: Hash, stack: seq<seq<Hash>>)
    requires g.Valid() && b in g.headers && g.Child(current)
    requires g.Order(b) == g.Order(current) + Unstacked(stack)
    ensures g.Order(b) == g.Order(g.SelectedParent(current)) + Unstacked(stack + [g.Fresh(current)])
  {
    OrderStep(g, current);
    UnstackedPush(stack, g.Fresh(current));
    Reassociate(g.Order(g.SelectedParent(current)), g.Fresh(current), Unstacked(stack));
  }

  lemma GenesisOrder(g: Graph)
    requires g.Valid()
    ensures g.Order(g.genesis) == g.Fresh(g.genesis)
  {
  }

  lemma Reassociate(a: seq<Hash>, b: seq<Hash>, c: seq<Hash>)
    ensures a + b + c == a + (b + c)
  {
  }

  class Store {
    const genesis: Hash
    var nodes: map<Hash, NodeData>
    var tips: set<Hash>
    var order: seq<Hash>
    var positions: map<Hash, nat>
    var orderTip: Hash
    var reference: Dags.Dag?

    /** The accepted headers. */
    ghost function View(): Graph
      reads this`nodes
    {
      ViewOf(genesis, nodes)
    }

    /** The mirror lives exactly inside the window, and holds exactly the accepted blocks. */
    ghost predicate Mirrored()
      reads this`nodes, this`reference, reference
    {
      && (reference != null <==> |nodes| < REFERENCE_WINDOW)
      && (reference != null ==> reference.Valid() && reference.View() == ViewOf(genesis, nodes))
    }

    ghost predicate Valid()
      reads this, reference
    {
      && Sound(ViewOf(genesis, nodes), nodes, tips)
      && Materializes(ViewOf(genesis, nodes), orderTip, order, positions)
      && orderTip == BestTip(ViewOf(genesis, nodes))
      && Mirrored()
    }

    /** The store of a genesis alone, mirror included. */
    ghost predicate Solo(block: Block)
      reads this, reference
    {
      && Valid() && reference != null
      && View() == Root(block)
      && block.id in nodes && nodes[block.id].txIds == block.txIds
    }

    constructor Open(block: Block, mirror: Dags.Dag)
      requires block.header.height == 0 && mirror.Valid()
      requires mirror.View() == Root(block)
      ensures reference == mirror && Solo(block)
    {
      genesis := block.id;
      nodes := map[block.id := NodeData(block.header, block.txIds, 1, None, {}, [block.id], 1)];
      tips := {block.id};
      order := [block.id];
      positions := map[block.id := 0];
      orderTip := block.id;
      reference := mirror;
      new;
      assert ViewOf(genesis, nodes) == Root(block);
      SoloGraph(block.id, block.header, block.txIds);
    }

    /** Opens the store, and its mirror, on the network genesis, or names the first rule it breaks. */
    static method New(digests: Digests, block: Block) returns (r: Result<Store, NodeError>)
      ensures r.Failure? ==>
                GenesisRefusal(digests, block).Some? && r.error == Rule(GenesisRefusal(digests, block).value)
      ensures r.Success? ==>
                && GenesisRefusal(digests, block).None?
                && fresh(r.value) && r.value.Solo(block) && fresh(r.value.reference)
      ensures var h := block.header;
              r.Success? <==> h.parents == [0] && h.height == 0 && h.payloadRoot == digests.payloadRoot(block.txIds)
    {
      if block.header.parents != [ZERO] {
        return Failure(Rule(ZeroParent));
      }
      if block.header.height != 0 {
        return Failure(Rule(HeightMismatch(block.header.height, 0)));
      }
      var computed := digests.payloadRoot(block.txIds);
      if computed != block.header.payloadRoot {
        return Failure(Rule(PayloadRootMismatch(block.header.payloadRoot, computed)));
      }
      var mirror := Dags.Dag.New(digests, block);
      assert mirror.Success?;
      var store := new Store.Open(block, mirror.value);
      return Success(store);
    }

    /** The best tip: highest blue score, ties by the smallest id. */
    method GetBestTip() returns (best: Hash)
      requires Sound(ViewOf(genesis, nodes), nodes, tips)
      ensures best == BestTip(ViewOf(genesis, nodes))
    {
      TipsExist(ViewOf(genesis, nodes));
      var known := nodes;
      var rank := Fill(tips, (t: Hash) => if t in known then 0 - known[t].blueScore as int else 0);
      ghost var expected := Descending(tips, TipScores(ViewOf(genesis, nodes)));
      forall t | t in tips ensures rank[t] == expected[t] {
        assert nodes[t] == Kept(ViewOf(genesis, nodes), t, nodes[t].txIds);
      }
      best := FindFirst(tips, rank);
      FirstUnique(best, tips, expected, rank);
    }

    /** The selected parent and the fresh set of a held block, as stored. */
    method Step(current: Hash) returns (parent: Option<Hash>, added: seq<Hash>)
      requires Sound(ViewOf(genesis, nodes), nodes, tips) && current in nodes
      ensures added == ViewOf(genesis, nodes).Fresh(current)
      ensures parent == if current == genesis then None else Some(ViewOf(genesis, nodes).SelectedParent(current))
    {
      parent, added := nodes[current].selectedParent, nodes[current].added;
      KeptParts(ViewOf(genesis, nodes), nodes, tips, current);
    }

    /** The fresh sets of the whole chain below a tip, tip first. */
    method CollectChain(tip: Hash) returns (stack: seq<seq<Hash>>)
      requires Sound(ViewOf(genesis, nodes), nodes, tips) && tip in nodes
      ensures Unstacked(stack) == ViewOf(genesis, nodes).Order(tip)
    {
      hide Graph.Order, Graph.Fresh, Graph.SelectedParent, AllKept;
      ghost var g := ViewOf(genesis, nodes);
      var current := tip;
      var parent, added := Step(current);
      stack := [];
      assert g.Order(tip) == g.Order(tip) + Unstacked([]);
      while parent.Some?
        invariant current in nodes && added == g.Fresh(current)
        invariant parent == if current == genesis then None else Some(g.SelectedParent(current))
        invariant g.Order(tip) == g.Order(current) + Unstacked(stack)
        decreases g.Height(current)
      {
        WalkStep(g, tip, current, stack);
        stack := stack + [added];
        current := parent.value;
        parent, added := Step(current);
      }
      UnstackedPush(stack, added);
      GenesisOrder(g);
      stack := stack + [added];
    }

    /** The materialized order of a tip, from the whole selected-parent chain. */
    method RebuildOrder(tip: Hash) returns (listing: seq<Hash>, index: map<Hash, nat>)
      requires Sound(ViewOf(genesis, nodes), nodes, tips) && tip in nodes
      ensures Materializes(ViewOf(genesis, nodes), tip, listing, index)
    {
      hide *;
      ghost var g := ViewOf(genesis, nodes);
      SoundParts(g, nodes, tips);
      var stack := CollectChain(tip);
      OrderListsView(g, tip);
      NothingIndexed();
      assert g.Order(tip) == [] + Unstacked(stack);
      listing, index := AppendAll([], map[], stack, g.Order(tip));
      IndexedMaterializes(g, tip, listing, index);
    }

    /** The bounded walk from a tip towards the materialized one: the fresh sets met, tip first. */
    method WalkDown(best: Hash) returns (met: bool, stack: seq<seq<Hash>>)
      requires Sound(ViewOf(genesis, nodes), nodes, tips) && best in nodes && orderTip in nodes
      ensures met ==> ViewOf(genesis, nodes).Order(best) == ViewOf(genesis, nodes).Order(orderTip) + Unstacked(stack)
    {
      ghost var g := ViewOf(genesis, nodes);
      stack := [];
      var current := best;
      while current != orderTip
        invariant current in nodes && g.Order(best) == g.Order(current) + Unstacked(stack)
        decreases g.Height(current)
      {
        if |stack| >= MAX_ORDER_WALK {
          return false, stack;
        }
        var parent, added := Step(current);
        if parent.None? {
          return false, stack;
        }
        WalkStep(g, best, current, stack);
        stack := stack + [added];
        current := parent.value;
      }
      met := true;
    }

    /**
     The materialized order of the new best tip: the old one extended when the walk down from the tip
     meets the old tip within the bound, rebuilt otherwise.
     */
    method Refreshed() returns (best: Hash, listing: seq<Hash>, index: map<Hash, nat>)
      requires Sound(ViewOf(genesis, nodes), nodes, tips)
      requires Materializes(ViewOf(genesis, nodes), orderTip, order, positions)
      ensures best == BestTip(ViewOf(genesis, nodes))
      ensures Materializes(ViewOf(genesis, nodes), best, listing, index)
    {
      best := GetBestTip();
      if best == orderTip {
        return best, order, positions;
      }
      var met, stack := WalkDown(best);
      if met {
        OrderListsView(ViewOf(genesis, nodes), best);
        listing, index := AppendAll(order, positions, stack, ViewOf(genesis, nodes).Order(best));
      } else {
        listing, index := RebuildOrder(best);
      }
    }

    method RefreshOrder()
      requires Sound(ViewOf(genesis, nodes), nodes, tips)
      requires Materializes(ViewOf(genesis, nodes), orderTip, order, positions)
      modifies this`order, this`positions, this`orderTip
      ensures Materializes(ViewOf(genesis, nodes), orderTip, order, positions)
      ensures orderTip == BestTip(ViewOf(genesis, nodes))
    {
      hide *;
      var best, listing, index := Refreshed();
      order, positions, orderTip := listing, index, best;
    }

    /** The consensus order of the view of any held block, from the stored chain. */
    method ConsensusOrder(tip: Hash) returns (r: Result<seq<Hash>, NodeError>)
      requires Sound(ViewOf(genesis, nodes), nodes, tips)
      ensures r == if tip in nodes then Success(ViewOf(genesis, nodes).Order(tip)) else Failure(Rule(UnknownBlock(tip)))
    {
      hide *;
      if tip !in nodes {
        return Failure(Rule(UnknownBlock(tip)));
      }
      var stack := CollectChain(tip);
      var listing := PopAll(stack);
      r := Success(listing);
    }

    /** One pass over the parents: the first unknown one, or the height and timestamp they impose. */
    method ScanParents(parents: seq<Hash>) returns (unknown: Option<Hash>, height: nat, timestamp: nat)
      ensures unknown == FirstUnknown(Headers(nodes), parents)
      ensures unknown.None? ==>
                height == HeightOver(Headers(nodes), parents) && timestamp == TimestampOver(Headers(nodes), parents)
    {
      height, timestamp := 0, 0;
      ghost var headers := Headers(nodes);
      for i := 0 to |parents|
        invariant forall p | p in parents[..i] :: p in headers
        invariant FirstUnknown(headers, parents) == FirstUnknown(headers, parents[i..])
        invariant height == HeightOver(headers, parents[..i])
        invariant timestamp == TimestampOver(headers, parents[..i])
      {
        var parent := parents[i];
        if parent !in nodes {
          return Some(parent), 0, 0;
        }
        HeaderStep(headers, parents, i);
        height := Max(height, nodes[parent].header.height + 1);
        timestamp := Max(timestamp, nodes[parent].header.timestamp);
      }
      assert parents[..|parents|] == parents;
      unknown := None;
    }

    /** The rule battery of the reference insertion, in the reference order. */
    method CheckRules(digests: Digests, block: Block, policy: Policy, nowMs: nat) returns (refusal: Option<DagError>)
      ensures refusal == Refusal(Headers(nodes), digests, block, policy, nowMs)
    {
      var header := block.header;
      var computedRoot := digests.payloadRoot(block.txIds);
      if computedRoot != header.payloadRoot {
        return Some(PayloadRootMismatch(header.payloadRoot, computedRoot));
      }
      if block.id in nodes {
        return Some(Duplicate(block.id));
      }
      if header.parents == [ZERO] {
        return Some(ZeroParent);
      }
      var unknown, computedHeight, maxParentTimestamp := ScanParents(header.parents);
      if unknown.Some? {
        return Some(UnknownParent(unknown.value));
      }
      if header.height != computedHeight {
        return Some(HeightMismatch(header.height, computedHeight));
      }
      if header.timestamp < maxParentTimestamp {
        return Some(TimestampBehind(header.timestamp, maxParentTimestamp));
      }
      var limit := SaturatingAdd(nowMs, policy.maxFutureMs);
      if header.timestamp > limit {
        return Some(TimestampFuture(header.timestamp, limit));
      }
      if digests.zeroBits(block.id) < policy.difficultyBits {
        return Some(InsufficientWork(digests.zeroBits(block.id), policy.difficultyBits));
      }
      refusal := None;
    }

    /** The chain path: a single parent leaves nothing to color, so the answers are read off it. */
    method ColorChain(block: Block) returns (data: NodeData)
      requires Sound(ViewOf(genesis, nodes), nodes, tips)
      requires Acceptable(ViewOf(genesis, nodes), block.id, block.header) && |block.header.parents| == 1
      ensures data == KeptNew(ViewOf(genesis, nodes), block)
    {
      hide *;
      ghost var g := ViewOf(genesis, nodes);
      var parent := block.header.parents[0];
      assert block.header.parents == [parent] && parent in block.header.parents;
      ParentsAreHeld(genesis, nodes, block);
      KeptParts(g, nodes, tips, parent);
      ChainPath(g, block, parent);
      data := NodeData(block.header, block.txIds, nodes[parent].blueScore + 1, Some(parent), {}, [block.id],
                       nodes[parent].orderLen + 1);
    }

    /** The parents stop being tips and gain a child. */
    method Link(id: Hash, parents: seq<Hash>)
      requires forall p | p in parents :: p in nodes
      modifies this`nodes, this`tips
      ensures nodes.Keys == old(nodes.Keys)
      ensures forall b | b in nodes :: nodes[b] == Adopted(old(nodes)[b], b, id, parents)
      ensures tips == old(tips) - Elements(parents)
    {
      for i := 0 to |parents|
        invariant nodes.Keys == old(nodes.Keys)
        invariant forall b | b in nodes :: nodes[b] == Adopted(old(nodes)[b], b, id, parents[..i])
        invariant tips == old(tips) - Elements(parents[..i])
      {
        var parent := parents[i];
        var data := nodes[parent];
        nodes := nodes[parent := data.(children := data.children + {id})];
        tips := tips - {parent};
        assert parents[..i + 1] == parents[..i] + [parent];
      }
      assert parents[..|parents|] == parents;
    }

    /** The block joins the table and becomes a tip. */
    method Accept(block: Block, data: NodeData)
      requires Sound(ViewOf(genesis, nodes), nodes, tips)
      requires Acceptable(ViewOf(genesis, nodes), block.id, block.header)
      requires data == KeptNew(ViewOf(genesis, nodes), block)
      modifies this`nodes, this`tips
      ensures ViewOf(genesis, nodes) == Grown(old(ViewOf(genesis, nodes)), block.id, block.header)
      ensures Sound(ViewOf(genesis, nodes), nodes, tips)
      ensures Recorded(old(nodes), nodes, block)
    {
      ghost var g, before, known := ViewOf(genesis, nodes), nodes, tips;
      hide *;
      ParentsAreHeld(genesis, nodes, block);
      SoundParts(g, nodes, tips);
      NewKeepsBody(g, block);
      Link(block.id, block.header.parents);
      SoundAccept(g, block, before, nodes, known);
      RecordedAfter(before, nodes, block, data);
      nodes := nodes[block.id := data];
      tips := tips + {block.id};
    }

    /** The coloring of an acceptable block: the chain path, or the mirror's answers for a merge. */
    method ColorBlock(block: Block) returns (data: NodeData)
      requires Sound(ViewOf(genesis, nodes), nodes, tips)
      requires Acceptable(ViewOf(genesis, nodes), block.id, block.header)
      requires reference != null ==>
                 reference.Valid() && reference.View() == Grown(ViewOf(genesis, nodes), block.id, block.header)
      requires |block.header.parents| != 1 ==> reference != null
      ensures data == KeptNew(ViewOf(genesis, nodes), block)
    {
      if |block.header.parents| == 1 {
        data := ColorChain(block);
      } else {
        NewHasNoChild(ViewOf(genesis, nodes), block.id, block.header);
        data := ColorFork(reference, block);
      }
    }

    /** The mirror, while it lives, accepts what the store's own rules accepted. */
    method FeedMirror(digests: Digests, block: Block, policy: Policy, nowMs: nat)
      requires Mirrored() && ViewOf(genesis, nodes).Valid() && |block.header.parents| > 0
      requires Outcome(ViewOf(genesis, nodes), digests, block, policy, nowMs).Success?
      modifies reference
      ensures reference != null ==>
                reference.Valid() && reference.View() == Grown(ViewOf(genesis, nodes), block.id, block.header)
    {
      if reference != null {
        var mirrored := reference.Insert(digests, block, policy, nowMs);
        assert mirrored.Success?;
      }
    }

    /** An acceptable block joins the table, the mirror and the materialized order. */
    method Admit(digests: Digests, block: Block, policy: Policy, nowMs: nat)
      requires Valid() && |block.header.parents| > 0
      requires StoreOutcome(View(), digests, block, policy, nowMs).Success?
      modifies this, reference
      ensures Valid() && View() == Grown(old(View()), block.id, block.header)
      ensures Recorded(old(nodes), nodes, block)
      ensures reference == old(reference) || reference == null
    {
      hide *;
      ghost var g := ViewOf(genesis, nodes);
      Parts(this);
      Admissible(g, digests, block, policy, nowMs);
      MaterializedAccept(g, block, orderTip, order, positions);
      FeedMirror(digests, block, policy, nowMs);
      var data := ColorBlock(block);
      Accept(block, data);
      if |nodes| >= REFERENCE_WINDOW {
        reference := null;
      }
      RefreshOrder();
      Whole(this);
    }

    /**
     Inserts a block after the full rule battery. The store gives the verdict of the reference insertion,
     but refuses merges once the window is closed; the mirror follows while it lives, and the best order
     is extended or rebuilt.
     */
    method Insert(digests: Digests, block: Block, policy: Policy, nowMs: nat) returns (r: Result<Hash, NodeError>)
      requires Valid() && |block.header.parents| > 0
      modifies this, reference
      ensures Valid()
      ensures r == StoreOutcome(old(View()), digests, block, policy, nowMs)
      ensures View() == StoreAfter(old(View()), digests, block, policy, nowMs)
      ensures r.Success? ==> Recorded(old(nodes), nodes, block)
      ensures r.Failure? ==> unchanged(this) && (reference != null ==> unchanged(reference))
      ensures reference == old(reference) || reference == null
    {
      hide *;
      Parts(this);
      var refusal := CheckRules(digests, block, policy, nowMs);
      Verdict(View(), digests, block, policy, nowMs);
      if refusal.Some? {
        r := Failure(Rule(refusal.value));
      } else if |block.header.parents| != 1 && reference == null {
        r := Failure(MergeBeyondWindow(|block.header.parents|, REFERENCE_WINDOW));
      } else {
        Admit(digests, block, policy, nowMs);
        r := Success(block.id);
      }
    }
  }

  lemma Parts(s: Store)
    requires s.Valid()
    ensures s.View() == ViewOf(s.genesis, s.nodes) && s.View().headers == Headers(s.nodes)
    ensures Sound(s.View(), s.nodes, s.tips) && s.View().Valid() && s.Mirrored()
    ensures Materializes(s.View(), s.orderTip, s.order, s.positions)
    ensures s.orderTip == BestTip(s.View()) && s.order == s.View().Order(s.orderTip)
    ensures s.reference != null <==> |s.View().headers| < REFERENCE_WINDOW
  {
    SameSize(s.View().headers, s.nodes);
  }

  lemma SoloParts(s: Store, block: Block)
    requires s.Solo(block)
    ensures s.Valid() && s.reference != null && s.View() == Root(block)
    ensures block.id in s.nodes && s.nodes[block.id].txIds == block.txIds
  {
  }

  lemma KeptParts(g: Graph, nodes: map<Hash, NodeData>, tips: set<Hash>, b: Hash)
    requires Sound(g, nodes, tips) && b in g.headers
    ensures g.Valid() && b in nodes
    ensures nodes[b].blueScore == g.Score(b) && nodes[b].orderLen == |g.Order(b)| && nodes[b].added == g.Fresh(b)
    ensures nodes[b].selectedParent == if b == g.genesis then None else Some(g.SelectedParent(b))
    ensures nodes[b].children == g.Children(b)
  {
    assert nodes[b] == Kept(g, b, nodes[b].txIds);
  }

  lemma SoundParts(g: Graph, nodes: map<Hash, NodeData>, tips: set<Hash>)
    requires Sound(g, nodes, tips)
    ensures g.Valid() && nodes.Keys == g.headers.Keys && tips == g.Tips()
  {
  }

  lemma Verdict(g: Graph, digests: Digests, block: Block, policy: Policy, nowMs: nat)
    ensures var refusal := Refusal(g.headers, digests, block, policy, nowMs);
            if refusal.Some? then
              && StoreOutcome(g, digests, block, policy, nowMs) == Failure(Rule(refusal.value))
              && StoreAfter(g, digests, block, policy, nowMs) == g
            else if |block.header.parents| != 1 && |g.headers| >= REFERENCE_WINDOW then
              && StoreOutcome(g, digests, block, policy, nowMs)
                 == Failure(MergeBeyondWindow(|block.header.parents|, REFERENCE_WINDOW))
              && StoreAfter(g, digests, block, policy, nowMs) == g
            else
              && StoreOutcome(g, digests, block, policy, nowMs) == Success(block.id)
              && StoreAfter(g, digests, block, policy, nowMs) == Grown(g, block.id, block.header)
  {
  }

  lemma Whole(s: Store)
    requires Sound(ViewOf(s.genesis, s.nodes), s.nodes, s.tips)
    requires Materializes(ViewOf(s.genesis, s.nodes), s.orderTip, s.order, s.positions)
    requires s.orderTip == BestTip(ViewOf(s.genesis, s.nodes))
    requires s.reference != null <==> |s.nodes| < REFERENCE_WINDOW
    requires s.reference != null ==> s.reference.Valid() && s.reference.View() == ViewOf(s.genesis, s.nodes)
    ensures s.Valid() && s.View() == ViewOf(s.genesis, s.nodes)
  {
  }

  lemma SameSize<V, W>(a: map<Hash, V>, b: map<Hash, W>)
    requires a.Keys == b.Keys
    ensures |a| == |b|
  {
    assert |a| == |a.Keys| && |b| == |b.Keys|;
  }

  lemma Admissible(g: Graph, digests: Digests, block: Block, policy: Policy, nowMs: nat)
    requires g.Valid() && |block.header.parents| > 0
    requires StoreOutcome(g, digests, block, policy, nowMs).Success?
    ensures Outcome(g, digests, block, policy, nowMs).Success?
    ensures Acceptable(g, block.id, block.header)
    ensures |block.header.parents| != 1 ==> |g.headers| < REFERENCE_WINDOW
    ensures |Grown(g, block.id, block.header).headers| == |g.headers| + 1
  {
  }

  /** The order of the old best tip is not disturbed by an insertion. */
  lemma MaterializedAccept(g: Graph, block: Block, tip: Hash, order: seq<Hash>, positions: map<Hash, nat>)
    requires g.Valid() && Acceptable(g, block.id, block.header) && Materializes(g, tip, order, positions)
    ensures Grown(g, block.id, block.header).Valid()
    ensures Materializes(Grown(g, block.id, block.header), tip, order, positions)
  {
    GrownIsValid(g, block.id, block.header);
    OrderStable(g, Grown(g, block.id, block.header), tip);
  }

  /** The fork path: the mirror, which just colored the merge, answers. */
  method ColorFork(mirror: Dags.Dag, block: Block) returns (data: NodeData)
    requires mirror.Valid() && mirror.View().Child(block.id) && mirror.View().headers[block.id] == block.header
    requires mirror.View().Children(block.id) == {}
    ensures data == Kept(mirror.View(), block.id, block.txIds)
  {
    ghost var h := mirror.View();
    assert mirror.nodes[block.id] == Dags.Derived(h, block.id);
    var selected := mirror.nodes[block.id].selectedParent.value;
    var score := mirror.nodes[block.id].blueScore;
    var order := mirror.ConsensusOrder(block.id);
    var parentOrder := mirror.ConsensusOrder(selected);
    ForkPath(h, block.id);
    data := NodeData(block.header, block.txIds, score, Some(selected), {}, order.value[|parentOrder.value|..],
      |order.value|);
  }

  /** Pops a stack of fresh sets into one listing. */
  method PopAll(stack: seq<seq<Hash>>) returns (listing: seq<Hash>)
    ensures listing == Unstacked(stack)
  {
    hide *;
    listing := [];
    var i := |stack|;
    assert stack[..i] == stack && [] + Unstacked(stack) == Unstacked(stack);
    while i > 0
      invariant 0 <= i <= |stack|
      invariant Unstacked(stack) == listing + Unstacked(stack[..i])
    {
      i := i - 1;
      assert stack[..i + 1] == stack[..i] + [stack[i]];
      UnstackedPush(stack[..i], stack[i]);
      Reassociate(listing, stack[i], Unstacked(stack[..i]));
      listing := listing + stack[i];
    }
    NothingUnstacked(stack[..0]);
    assert listing + [] == listing;
  }

  /** Pops a stack of fresh sets onto an indexed listing. */
  method AppendAll(order: seq<Hash>, positions: map<Hash, nat>, stack: seq<seq<Hash>>, ghost final: seq<Hash>)
    returns (order': seq<Hash>, positions': map<Hash, nat>)
    requires Indexed(order, positions) && Distinct(final) && final == order + Unstacked(stack)
    ensures order' == final && Indexed(order', positions')
  {
    order', positions' := order, positions;
    var i := |stack|;
    assert stack[..i] == stack;
    while i > 0
      invariant 0 <= i <= |stack|
      invariant Indexed(order', positions') && final == order' + Unstacked(stack[..i])
    {
      i := i - 1;
      assert stack[..i + 1][..i] == stack[..i];
      Reassociate(order', stack[i], Unstacked(stack[..i]));
      order', positions' := Append(order', positions', stack[i], final);
    }
  }

  method Append(order: seq<Hash>, positions: map<Hash, nat>, added: seq<Hash>, ghost final: seq<Hash>)
    returns (order': seq<Hash>, positions': map<Hash, nat>)
    requires Indexed(order, positions) && Distinct(final) && order + added <= final
    ensures order' == order + added && Indexed(order', positions')
  {
    order', positions' := order, positions;
    for j := 0 to |added|
      invariant order' == order + added[..j]
      invariant Indexed(order', positions')
    {
      IndexedAppend(order', positions', added[j], final);
      positions' := positions'[added[j] := |order'|];
      order' := order' + [added[j]];
      assert order + added[..j] + [added[j]] == order + added[..j + 1];
    }
  }

  lemma IndexedAppend(order: seq<Hash>, positions: map<Hash, nat>, b: Hash, final: seq<Hash>)
    requires Indexed(order, positions) && Distinct(final) && order + [b] <= final
    ensures Indexed(order + [b], positions[b := |order|])
  {
    assert final[|order|] == b;
    assert forall i | 0 <= i < |order| :: final[i] == order[i];
    ElementsAppend(order, [b]);
  }
}
