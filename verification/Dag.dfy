/**
 The reference BlockDAG: accepted blocks with their materialized pasts and blue sets, and the tips.
 The class keeps, for every block, exactly the derived state `Graphs` defines on the accepted headers.
 */
module Dags {
  import opened Wrappers
  import opened Maps
  import opened Ranking
  import opened Words
  import opened Blocks
  import opened Graphs
  import opened Ancestry
  import opened Growth
  import opened Ordering

  datatype Node = Node(
    header: Header,
    blues: set<Hash>,
    blueScore: nat,
    selectedParent: Option<Hash>,
    past: set<Hash>,
    children: set<Hash>)

  /** The derived state of a held block, as a node stores it. */
  ghost function Derived(g: Graph, b: Hash): Node
    requires g.Valid() && b in g.headers
  {
    Node(g.headers[b], g.Blues(b), g.Score(b),
         if b == g.genesis then None else Some(g.SelectedParent(b)), g.Past(b), g.Children(b))
  }

  /** The derived state a new header would have. */
  ghost function DerivedOver(g: Graph, header: Header): Node
    requires g.Valid() && g.Held(header.parents) && |header.parents| > 0
  {
    var parents := header.parents;
    Node(header, g.BluesOver(parents), |g.BluesOver(parents)| + 1, Some(g.SelectedOver(parents)),
         g.PastOver(parents), {})
  }

  ghost predicate AllExact(g: Graph, nodes: map<Hash, Node>)
    requires g.Valid()
  {
    && nodes.Keys == g.headers.Keys
    && forall b {:trigger Derived(g, b)} | b in nodes :: nodes[b] == Derived(g, b)
  }

  /** A node after `id` was linked under the parents of a list. */
  function Adopted(node: Node, b: Hash, id: Hash, parents: seq<Hash>): Node {
    if b in parents then node.(children := node.children + {id}) else node
  }

  /** A node table after `id` joined under the parents of a list. */
  ghost predicate Relinked(before: map<Hash, Node>, after: map<Hash, Node>, id: Hash, parents: seq<Hash>) {
    && after.Keys == before.Keys + {id}
    && forall b | b in before && b != id :: after[b] == Adopted(before[b], b, id, parents)
  }

  lemma DerivedStable(g: Graph, h: Graph, b: Hash)
    requires g.Valid() && h.Valid() && Extends(g, h) && b in g.headers
    ensures Derived(h, b) == Derived(g, b).(children := h.Children(b))
  {
    PastStable(g, h, b);
    ScoreStable(g, h, b);
    if b != g.genesis {
      SelectedStable(g, h, b);
    }
  }

  lemma StillExact(g: Graph, id: Hash, header: Header, b: Hash)
    requires g.Valid() && Acceptable(g, id, header) && b in g.headers
    ensures Grown(g, id, header).Valid()
    ensures Derived(Grown(g, id, header), b) == Adopted(Derived(g, b), b, id, header.parents)
  {
    GrownIsValid(g, id, header);
    DerivedStable(g, Grown(g, id, header), b);
    ChildrenGrow(g, id, header, b);
  }

  lemma NewPast(g: Graph, id: Hash, header: Header)
    requires g.Valid() && Acceptable(g, id, header)
    ensures Grown(g, id, header).Valid() && Grown(g, id, header).Past(id) == g.PastOver(header.parents)
  {
    GrownIsValid(g, id, header);
    PastOverStable(g, Grown(g, id, header), header.parents);
  }

  lemma NewBlues(g: Graph, id: Hash, header: Header)
    requires g.Valid() && Acceptable(g, id, header)
    ensures Grown(g, id, header).Valid() && Grown(g, id, header).Blues(id) == g.BluesOver(header.parents)
  {
    GrownIsValid(g, id, header);
    BluesOverStable(g, Grown(g, id, header), header.parents);
  }

  lemma NewSelected(g: Graph, id: Hash, header: Header)
    requires g.Valid() && Acceptable(g, id, header)
    ensures Grown(g, id, header).Valid() && Grown(g, id, header).SelectedParent(id) == g.SelectedOver(header.parents)
  {
    GrownIsValid(g, id, header);
    SelectedOverStable(g, Grown(g, id, header), header.parents);
  }

  lemma NewExact(g: Graph, id: Hash, header: Header)
    requires g.Valid() && Acceptable(g, id, header)
    ensures Grown(g, id, header).Valid() && Derived(Grown(g, id, header), id) == DerivedOver(g, header)
  {
    NewPast(g, id, header);
    NewBlues(g, id, header);
    NewSelected(g, id, header);
    TipsGrow(g, id, header);
  }

  /** Accepting a block leaves every node exact. */
  lemma AcceptExact(g: Graph, id: Hash, header: Header, before: map<Hash, Node>, after: map<Hash, Node>)
    requires g.Valid() && Acceptable(g, id, header) && AllExact(g, before) && Grown(g, id, header).Valid()
    requires Relinked(before, after, id, header.parents) && after[id] == DerivedOver(g, header)
    ensures AllExact(Grown(g, id, header), after)
  {
    var h := Grown(g, id, header);
    assert after.Keys == h.headers.Keys;
    forall b {:trigger Derived(h, b)} | b in after ensures after[b] == Derived(h, b) {
      OneExact(g, id, header, before, after, b);
    }
  }

  lemma OneExact(g: Graph, id: Hash, header: Header, before: map<Hash, Node>, after: map<Hash, Node>, b: Hash)
    requires g.Valid() && Acceptable(g, id, header) && AllExact(g, before) && Grown(g, id, header).Valid()
    requires Relinked(before, after, id, header.parents) && after[id] == DerivedOver(g, header) && b in after
    ensures after[b] == Derived(Grown(g, id, header), b)
  {
    if b == id {
      NewExact(g, id, header);
    } else {
      assert before[b] == Derived(g, b);
      StillExact(g, id, header, b);
    }
  }

  /** The headers a node table holds. */
  ghost function Headers(nodes: map<Hash, Node>): (r: map<Hash, Header>)
    ensures r.Keys == nodes.Keys
    ensures forall b | b in nodes :: r[b] == nodes[b].header
  {
    Mapped(nodes, (node: Node) => node.header)
  }

  /** A node table and a tip set that hold the derived state of a graph and nothing else. */
  ghost predicate Exact(g: Graph, nodes: map<Hash, Node>, tips: set<Hash>) {
    g.Valid() && AllExact(g, nodes) && tips == g.Tips()
  }

  lemma HeadersAccept(before: map<Hash, Node>, after: map<Hash, Node>, id: Hash, parents: seq<Hash>)
    requires id !in before && Relinked(before, after, id, parents)
    ensures Headers(after) == Headers(before)[id := after[id].header]
  {
  }

  lemma RelinkedAfter(before: map<Hash, Node>, linked: map<Hash, Node>, id: Hash, node: Node)
    requires id !in before && linked.Keys == before.Keys
    requires forall b | b in linked :: linked[b] == Adopted(before[b], b, id, node.header.parents)
    ensures Relinked(before, linked[id := node], id, node.header.parents)
  {
  }

  lemma ExactAccept(g: Graph, id: Hash, before: map<Hash, Node>, linked: map<Hash, Node>, tips: set<Hash>, node: Node)
    requires Exact(g, before, tips) && g.headers == Headers(before)
    requires Acceptable(g, id, node.header) && node == DerivedOver(g, node.header)
    requires linked.Keys == before.Keys
    requires forall b | b in linked :: linked[b] == Adopted(before[b], b, id, node.header.parents)
    ensures Graph(g.genesis, Headers(linked[id := node])) == Grown(g, id, node.header)
    ensures Exact(Grown(g, id, node.header), linked[id := node], tips - Elements(node.header.parents) + {id})
  {
    var after := linked[id := node];
    RelinkedAfter(before, linked, id, node);
    GrownIsValid(g, id, node.header);
    AcceptExact(g, id, node.header, before, after);
    TipsGrow(g, id, node.header);
    HeadersAccept(before, after, id, node.header.parents);
  }

  /** What one more parent of a list brings. */
  lemma PrefixStep(g: Graph, parents: seq<Hash>, i: nat)
    requires g.Valid() && i < |parents| && g.Held(parents[..i])
    ensures FirstUnknown(g.headers, parents[i..]) ==
            if parents[i] in g.headers then FirstUnknown(g.headers, parents[i + 1..]) else Some(parents[i])
    ensures parents[i] in g.headers ==>
              && g.Held(parents[..i + 1])
              && g.PastOver(parents[..i + 1]) == g.PastOver(parents[..i]) + g.Past(parents[i]) + {parents[i]}
              && HeightOver(g.headers, parents[..i + 1]) ==
                 Max(HeightOver(g.headers, parents[..i]), g.headers[parents[i]].height + 1)
              && TimestampOver(g.headers, parents[..i + 1]) ==
                 Max(TimestampOver(g.headers, parents[..i]), g.headers[parents[i]].timestamp)
  {
    hide Graph.Past;
    var front := parents[..i + 1];
    assert front[..i] == parents[..i] && front[i] == parents[i];
    assert front == parents[..i] + [parents[i]];
    HeaderStep(g.headers, parents, i);
  }

  class Dag {
    const genesis: Hash
    var nodes: map<Hash, Node>
    var tips: set<Hash>

    /** The accepted headers, which determine everything else. */
    ghost function View(): (g: Graph)
      reads this
      ensures g.genesis == genesis && g.headers.Keys == nodes.Keys
    {
      Graph(genesis, Headers(nodes))
    }

    ghost predicate Valid()
      reads this
    {
      Exact(View(), nodes, tips)
    }

    constructor Open(block: Block)
      requires block.header.height == 0
      ensures Valid() && fresh(this)
      ensures View() == Graph(block.id, map[block.id := block.header])
    {
      genesis := block.id;
      nodes := map[block.id := Node(block.header, {}, 1, None, {}, {})];
      tips := {block.id};
      new;
      assert View() == Graph(block.id, map[block.id := block.header]);
      assert View().Children(genesis) == {};
    }

    /** Opens a DAG on its genesis block, or names the first rule the block breaks. */
    static method New(digests: Digests, block: Block) returns (r: Result<Dag, DagError>)
      ensures r.Failure? <==> GenesisRefusal(digests, block).Some?
      ensures var h := block.header;
              r.Success? <==> h.parents == [0] && h.height == 0 && h.payloadRoot == digests.payloadRoot(block.txIds)
      ensures var h := block.header;
              r.Failure? ==>
                r.error == if h.parents != [0] then ZeroParent
                           else if h.height != 0 then HeightMismatch(h.height, 0)
                           else PayloadRootMismatch(h.payloadRoot, digests.payloadRoot(block.txIds))
      ensures r.Failure? ==> Some(r.error) == GenesisRefusal(digests, block)
      ensures r.Success? ==> fresh(r.value) && r.value.Valid()
      ensures r.Success? ==> r.value.View() == Graph(block.id, map[block.id := block.header])
    {
      if block.header.parents != [ZERO] {
        return Failure(ZeroParent);
      }
      if block.header.height != 0 {
        return Failure(HeightMismatch(block.header.height, 0));
      }
      var computed := digests.payloadRoot(block.txIds);
      if computed != block.header.payloadRoot {
        return Failure(PayloadRootMismatch(block.header.payloadRoot, computed));
      }
      var dag := new Dag.Open(block);
      return Success(dag);
    }

    /** One pass over the parents: the first unknown one, or what they bring. */
    method ScanParents(parents: seq<Hash>) returns (unknown: Option<Hash>, past: set<Hash>, height: nat, timestamp: nat)
      requires Valid()
      ensures unknown == FirstUnknown(View().headers, parents)
      ensures unknown.None? ==>
                && past == View().PastOver(parents)
                && height == HeightOver(View().headers, parents)
                && timestamp == TimestampOver(View().headers, parents)
    {
      past, height, timestamp := {}, 0, 0;
      ghost var g := View();
      for i := 0 to |parents|
        invariant g.Held(parents[..i])
        invariant FirstUnknown(g.headers, parents) == FirstUnknown(g.headers, parents[i..])
        invariant past == g.PastOver(parents[..i])
        invariant height == HeightOver(g.headers, parents[..i])
        invariant timestamp == TimestampOver(g.headers, parents[..i])
      {
        var parent := parents[i];
        if parent !in nodes {
          return Some(parent), {}, 0, 0;
        }
        var node := nodes[parent];
        past := past + node.past + {parent};
        height := Max(height, node.header.height + 1);
        timestamp := Max(timestamp, node.header.timestamp);
        assert node.past == g.Past(parent) && node.header == g.headers[parent] by {
          assert nodes[parent] == Derived(View(), parent);
        }
        PrefixStep(g, parents, i);
      }
      assert parents[..|parents|] == parents;
      unknown := None;
    }

    /** The selected parent: highest blue score, ties by the smallest id. */
    method SelectParent(parents: seq<Hash>) returns (selected: Hash)
      requires Valid() && View().Held(parents) && |parents| > 0
      ensures selected == View().SelectedOver(parents)
      ensures selected in parents
              && forall p | p in parents && p != selected ::
                   View().Score(p) < View().Score(selected)
                   || (View().Score(p) == View().Score(selected) && selected < p)
    {
      ghost var g := View();
      ghost var scores := g.Scores(Elements(parents), HeightOver(g.headers, parents));
      selected := parents[0];
      assert selected in Elements(parents);
      var bestScore := nodes[selected].blueScore;
      assert nodes[selected] == Derived(View(), selected);
      for i := 0 to |parents|
        invariant selected in parents && selected in scores && bestScore == scores[selected]
        invariant Leads(selected, parents[..i], scores)
      {
        var parent := parents[i];
        var score := nodes[parent].blueScore;
        assert nodes[parent] == Derived(View(), parent);
        assert parent in scores && score == scores[parent];
        LeadsStep(selected, parents, i, scores);
        if score > bestScore || (score == bestScore && parent < selected) {
          bestScore := score;
          selected := parent;
        }
      }
      LeaderIs(parents, scores, selected);
    }

    /** The coloring loop over the new past of a block. */
    method Color(parents: seq<Hash>, selected: Hash, past: set<Hash>) returns (working: set<Hash>)
      requires Valid() && View().Held(parents) && |parents| > 0
      requires selected == View().SelectedOver(parents) && past == View().PastOver(parents)
      ensures working == View().BluesOver(parents)
    {
      var sp := nodes[selected];
      assert nodes[selected] == Derived(View(), selected);
      ColoringOf(View(), parents);
      var candidates := past - (sp.past + {selected});
      var queue := SortByScore(candidates, HeightOver(View().headers, parents));
      working := Grow(queue, sp.blues + {selected});
    }

    /** The parents stop being tips and gain a child. */
    method Link(id: Hash, parents: seq<Hash>)
      requires View().Held(parents)
      modifies this
      ensures nodes.Keys == old(nodes.Keys)
      ensures forall b | b in nodes :: nodes[b] == Adopted(old(nodes)[b], b, id, parents)
      ensures tips == old(tips) - Elements(parents)
    {
      for i := 0 to |parents|
        invariant nodes.Keys == old(nodes.Keys)
        invariant forall b | b in nodes :: nodes[b] == Adopted(old(nodes)[b], b, id, parents[..i])
        invariant tips == old(tips) - Elements(parents[..i])
      {
        var parent := parents[i];
        var node := nodes[parent];
        nodes := nodes[parent := node.(children := node.children + {id})];
        tips := tips - {parent};
        assert parents[..i + 1] == parents[..i] + [parent];
      }
      assert parents[..|parents|] == parents;
    }

    /** The rules of an insertion, in their order, and the new past when all hold. */
    method CheckRules(digests: Digests, block: Block, policy: Policy, nowMs: nat)
      returns (refusal: Option<DagError>, past: set<Hash>)
      requires Valid()
      ensures refusal == Refusal(View().headers, digests, block, policy, nowMs)
      ensures refusal.None? ==> View().Held(block.header.parents) && past == View().PastOver(block.header.parents)
      ensures refusal.None? && |block.header.parents| > 0 ==> Acceptable(View(), block.id, block.header)
    {
      var header := block.header;
      past := {};
      var computedRoot := digests.payloadRoot(block.txIds);
      if computedRoot != header.payloadRoot {
        return Some(PayloadRootMismatch(header.payloadRoot, computedRoot)), past;
      }
      if block.id in nodes {
        return Some(Duplicate(block.id)), past;
      }
      if header.parents == [ZERO] {
        return Some(ZeroParent), past;
      }
      var unknown, computedHeight, maxParentTimestamp;
      unknown, past, computedHeight, maxParentTimestamp := ScanParents(header.parents);
      if unknown.Some? {
        return Some(UnknownParent(unknown.value)), past;
      }
      if header.height != computedHeight {
        return Some(HeightMismatch(header.height, computedHeight)), past;
      }
      if header.timestamp < maxParentTimestamp {
        return Some(TimestampBehind(header.timestamp, maxParentTimestamp)), past;
      }
      var limit := SaturatingAdd(nowMs, policy.maxFutureMs);
      if header.timestamp > limit {
        return Some(TimestampFuture(header.timestamp, limit)), past;
      }
      if digests.zeroBits(block.id) < policy.difficultyBits {
        return Some(InsufficientWork(digests.zeroBits(block.id), policy.difficultyBits)), past;
      }
      refusal := None;
    }

    /**
     Inserts a block after the full rule check. On success the derived state of the block joins and
     nothing derived before changes; on refusal nothing changes at all.
     */
    method Insert(digests: Digests, block: Block, policy: Policy, nowMs: nat) returns (r: Result<Hash, DagError>)
      requires Valid() && |block.header.parents| > 0
      modifies this
      ensures Valid()
      ensures r == Outcome(old(View()), digests, block, policy, nowMs)
      ensures View() == After(old(View()), digests, block, policy, nowMs)
    {
      hide *;
      SoundView(this);
      var refusal, past := CheckRules(digests, block, policy, nowMs);
      Verdict(View(), digests, block, policy, nowMs);
      if refusal.Some? {
        r := Failure(refusal.value);
      } else {
        var selected := SelectParent(block.header.parents);
        var working := Color(block.header.parents, selected, past);
        DerivedParts(View(), block.header);
        Accept(block.id, Node(block.header, working, |working| + 1, Some(selected), past, {}));
        r := Success(block.id);
      }
    }

    /** The block becomes a tip; its parents stop being tips. */
    method Accept(id: Hash, node: Node)
      requires Valid() && Acceptable(View(), id, node.header)
      requires node == DerivedOver(View(), node.header)
      modifies this
      ensures Valid() && View() == Grown(old(View()), id, node.header)
    {
      hide *;
      ghost var g, before, known := View(), nodes, tips;
      SoundView(this);
      ParentsAreHeld(g, id, node.header);
      Link(id, node.header.parents);
      ExactAccept(g, id, before, nodes, known, node);
      nodes := nodes[id := node];
      tips := tips + {id};
      ExactView(this);
    }

    /** Each candidate in turn joins when its anticone in the working set is small. */
    method Grow(queue: seq<Hash>, inherited: set<Hash>) returns (working: set<Hash>)
      requires Valid() && View().Held(queue) && inherited <= nodes.Keys
      ensures working == View().Greedy(queue, inherited)
    {
      ghost var g := View();
      working := inherited;
      assert queue[..0] == [];
      for i := 0 to |queue|
        invariant g.Held(queue[..i])
        invariant working == g.Greedy(queue[..i], inherited)
      {
        var candidate := queue[i];
        var inAnticone := CountAnticone(candidate, working);
        GreedyStep(g, queue, i, inherited);
        if inAnticone <= K {
          working := working + {candidate};
        }
      }
      assert queue[..|queue|] == queue;
    }

    /** Candidates by score descending then id ascending. */
    method SortByScore(ids: set<Hash>, ghost bound: nat) returns (r: seq<Hash>)
      requires Valid() && forall x | x in ids :: x in nodes && View().Height(x) < bound
      ensures r == Sorted(ids, Descending(ids, View().Scores(ids, bound)))
    {
      var known := nodes;
      var rank := Fill(ids, (x: Hash) => if x in known then 0 - known[x].blueScore as int else 0);
      ghost var expected := Descending(ids, View().Scores(ids, bound));
      forall x | x in ids ensures rank[x] == expected[x] {
        assert nodes[x] == Derived(View(), x);
      }
      r := SortRanked(ids, rank);
      SortedCongruent(ids, rank, expected);
    }

    /** The size of the anticone of a candidate inside a working set. */
    method CountAnticone(candidate: Hash, working: set<Hash>) returns (n: nat)
      requires Valid() && candidate in nodes && working <= nodes.Keys
      ensures n == |View().Anticone(candidate, working)|
    {
      var anticone :=
        set u | u in working && u != candidate && u !in nodes[candidate].past && candidate !in nodes[u].past;
      assert nodes[candidate] == Derived(View(), candidate);
      forall u | u in working ensures nodes[u].past == View().Past(u) {
        assert nodes[u] == Derived(View(), u);
      }
      assert anticone == View().Anticone(candidate, working);
      n := |anticone|;
    }

    /** The best tip: highest blue score, ties by the smallest id. */
    method GetBestTip() returns (r: Result<Hash, DagError>)
      requires Valid()
      ensures r == Success(BestTip(View()))
    {
      if tips == {} {
        r := Failure(UnknownBlock(genesis));
        TipsExist(View());
      } else {
        var known := nodes;
        var rank := Fill(tips, (t: Hash) => if t in known then 0 - known[t].blueScore as int else 0);
        ghost var expected := Descending(tips, TipScores(View()));
        forall t | t in tips ensures rank[t] == expected[t] {
          assert nodes[t] == Derived(View(), t);
        }
        var best := FindFirst(tips, rank);
        FirstUnique(best, tips, expected, rank);
        r := Success(best);
      }
    }

    /** The selected-parent chain of a block, genesis first. */
    method Chain(tip: Hash) returns (chain: seq<Hash>)
      requires Valid() && tip in nodes
      ensures IsChain(View(), chain) && chain[0] == genesis && chain[|chain| - 1] == tip
    {
      ghost var g := View();
      chain := [tip];
      var last := tip;
      assert nodes[last] == Derived(g, last);
      while nodes[last].selectedParent.Some?
        invariant last in nodes
        invariant nodes[last].selectedParent == if last == genesis then None else Some(g.SelectedParent(last))
        invariant IsChain(g, chain) && chain[0] == last && chain[|chain| - 1] == tip
        decreases g.Height(last)
      {
        last := nodes[last].selectedParent.value;
        assert nodes[last] == Derived(View(), last);
        assert ([last] + chain)[1..] == chain;
        chain := [last] + chain;
      }
    }

    /** What a chain block adds to the view before it, by height then id. */
    method FreshOver(id: Hash, previousView: set<Hash>) returns (news: seq<Hash>, view: set<Hash>)
      requires Valid() && View().Child(id) && previousView == View().View(View().SelectedParent(id))
      ensures news == View().Fresh(id) && view == View().View(id)
    {
      ghost var g := View();
      assert nodes[id].past == g.Past(id) by { assert nodes[id] == Derived(View(), id); }
      view := nodes[id].past + {id};
      assert view == g.View(id) && view <= nodes.Keys;
      news := SortByHeight(view - previousView);
    }

    /** Blocks by height ascending then id ascending. */
    method SortByHeight(ids: set<Hash>) returns (r: seq<Hash>)
      requires ids <= nodes.Keys
      ensures r == Sorted(ids, View().Heights(ids))
    {
      var known := nodes;
      var heights := Fill(ids, (b: Hash) => if b in known then known[b].header.height as int else 0);
      r := SortRanked(ids, heights);
      SortedCongruent(ids, heights, View().Heights(ids));
    }

    /** The consensus order of the view of a held block. */
    method ConsensusOrder(tip: Hash) returns (r: Result<seq<Hash>, DagError>)
      requires Valid()
      ensures r == if tip in nodes then Success(View().Order(tip)) else Failure(UnknownBlock(tip))
    {
      if tip !in nodes {
        return Failure(UnknownBlock(tip));
      }
      var chain := Chain(tip);
      var order := OrderAlong(chain);
      r := Success(order);
    }

    /** Each chain block appends what it adds to the view before it. */
    method OrderAlong(chain: seq<Hash>) returns (order: seq<Hash>)
      requires Valid() && IsChain(View(), chain) && chain[0] == genesis
      ensures chain[|chain| - 1] in nodes && order == View().Order(chain[|chain| - 1])
    {
      hide *;
      SoundView(this);
      ChainStart(View(), chain);
      order := [genesis];
      var previousView := {genesis};
      for i := 1 to |chain|
        invariant chain[i - 1] in nodes && order == View().Order(chain[i - 1])
        invariant previousView == View().View(chain[i - 1])
      {
        ChainLink(View(), chain, i);
        OrderStep(View(), chain[i]);
        var news;
        news, previousView := FreshOver(chain[i], previousView);
        order := order + news;
      }
    }
  }

  /** A run of a selected-parent chain, earliest block first. */
  ghost predicate IsChain(g: Graph, chain: seq<Hash>)
    requires g.Valid()
    decreases |chain|
  {
    && |chain| > 0 && chain[0] in g.headers
    && (|chain| > 1 ==> g.Child(chain[1]) && chain[0] == g.SelectedParent(chain[1]) && IsChain(g, chain[1..]))
  }

  lemma ExactParts(g: Graph, nodes: map<Hash, Node>, tips: set<Hash>)
    requires Exact(g, nodes, tips)
    ensures g.Valid() && nodes.Keys == g.headers.Keys && tips == g.Tips()
  {
  }

  lemma NodeParts(g: Graph, nodes: map<Hash, Node>, tips: set<Hash>, b: Hash)
    requires Exact(g, nodes, tips) && b in nodes
    ensures g.Valid() && b in g.headers
    ensures nodes[b].past == g.Past(b) && nodes[b].blues == g.Blues(b) && nodes[b].blueScore == g.Score(b)
    ensures nodes[b].selectedParent == if b == g.genesis then None else Some(g.SelectedParent(b))
    ensures nodes[b].children == g.Children(b)
  {
    assert nodes[b] == Derived(g, b);
  }

  lemma ParentsAreHeld(g: Graph, id: Hash, header: Header)
    requires Acceptable(g, id, header)
    ensures g.Held(header.parents) && |header.parents| > 0
  {
  }

  lemma DerivedParts(g: Graph, header: Header)
    requires g.Valid() && g.Held(header.parents) && |header.parents| > 0
    ensures DerivedOver(g, header) ==
            Node(header, g.BluesOver(header.parents), |g.BluesOver(header.parents)| + 1,
                 Some(g.SelectedOver(header.parents)), g.PastOver(header.parents), {})
  {
  }

  lemma ExactView(d: Dag)
    requires Exact(Graph(d.genesis, Headers(d.nodes)), d.nodes, d.tips)
    ensures d.Valid() && d.View() == Graph(d.genesis, Headers(d.nodes))
  {
  }

  lemma Verdict(g: Graph, digests: Digests, block: Block, policy: Policy, nowMs: nat)
    ensures var refusal := Refusal(g.headers, digests, block, policy, nowMs);
            if refusal.Some? then
              && Outcome(g, digests, block, policy, nowMs) == Failure(refusal.value)
              && After(g, digests, block, policy, nowMs) == g
            else
              && Outcome(g, digests, block, policy, nowMs) == Success(block.id)
              && After(g, digests, block, policy, nowMs) == Grown(g, block.id, block.header)
  {
  }

  lemma SoundView(d: Dag)
    requires d.Valid()
    ensures d.View().Valid() && Exact(d.View(), d.nodes, d.tips) && d.View().headers == Headers(d.nodes)
  {
  }

  lemma ChainStart(g: Graph, chain: seq<Hash>)
    requires g.Valid() && IsChain(g, chain) && chain[0] == g.genesis
    ensures |chain| > 0 && g.genesis in g.headers
    ensures g.Order(g.genesis) == [g.genesis] && g.View(g.genesis) == {g.genesis}
  {
  }

  lemma {:induction false} ChainLink(g: Graph, chain: seq<Hash>, i: nat)
    requires g.Valid() && IsChain(g, chain) && 0 < i < |chain|
    ensures g.Child(chain[i]) && chain[i] in g.headers && chain[i - 1] == g.SelectedParent(chain[i])
    decreases |chain|
  {
    if i > 1 {
      ChainLink(g, chain[1..], i - 1);
    }
  }

  /** The coloring of a parent list, spelled out. */
  lemma ColoringOf(g: Graph, parents: seq<Hash>)
    requires g.Valid() && g.Held(parents) && |parents| > 0
    ensures var sp := g.SelectedOver(parents);
            var candidates := g.PastOver(parents) - g.View(sp);
            var bound := HeightOver(g.headers, parents);
            && (forall x | x in candidates :: x in g.headers && g.Height(x) < bound)
            && g.QueueOver(parents) == Sorted(candidates, Descending(candidates, g.Scores(candidates, bound)))
            && g.Blues(sp) + {sp} <= g.headers.Keys
            && g.BluesOver(parents) == g.Greedy(g.QueueOver(parents), g.Blues(sp) + {sp})
  {
    g.ParentView(parents, g.SelectedOver(parents));
  }

  /** Nothing in a list beats `m`, by descending score then ascending id. */
  ghost predicate Leads(m: Hash, ids: seq<Hash>, score: map<Hash, nat>)
    requires m in score && Elements(ids) <= score.Keys
  {
    forall x | x in Elements(ids) && x != m :: score[x] < score[m] || (score[x] == score[m] && m < x)
  }

  lemma LeadsStep(m: Hash, ids: seq<Hash>, i: nat, score: map<Hash, nat>)
    requires m in score && i < |ids| && Elements(ids) <= score.Keys
    requires Elements(ids[..i]) <= score.Keys && Leads(m, ids[..i], score)
    ensures var p := ids[i];
            var best := if score[p] > score[m] || (score[p] == score[m] && p < m) then p else m;
            Elements(ids[..i + 1]) <= score.Keys && Leads(best, ids[..i + 1], score)
  {
    assert ids[..i + 1] == ids[..i] + [ids[i]];
    assert Elements(ids[..i + 1]) == Elements(ids[..i]) + {ids[i]};
  }

  lemma LeaderIs(ids: seq<Hash>, score: map<Hash, nat>, m: Hash)
    requires m in ids && Elements(ids) <= score.Keys && Elements(ids[..|ids|]) <= score.Keys
    requires Leads(m, ids[..|ids|], score)
    ensures m == Leader(Elements(ids), score)
  {
    assert ids[..|ids|] == ids;
    FirstUnique(m, Elements(ids), Descending(Elements(ids), score), Descending(Elements(ids), score));
  }

  lemma GreedyStep(g: Graph, queue: seq<Hash>, i: nat, working: set<Hash>)
    requires g.Valid() && g.Held(queue) && working <= g.headers.Keys && i < |queue|
    ensures g.Held(queue[..i]) && g.Held(queue[..i + 1])
    ensures var before := g.Greedy(queue[..i], working);
            g.Greedy(queue[..i + 1], working) ==
            if |g.Anticone(queue[i], before)| <= K then before + {queue[i]} else before
  {
    assert queue[..i + 1][..i] == queue[..i];
  }
}
