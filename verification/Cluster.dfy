/**
 When a blue set is a K-cluster. The coloring asks whether a candidate meets at most K working blocks it is
 unrelated to, never whether one of those already has K. A blue set is a K-cluster exactly when, all along the
 selected chain, no candidate that joined met such a block; a run of twelve insertions shows one that does.
 */
module Clusters {
  import opened Wrappers
  import opened Ranking
  import opened Blocks
  import opened Graphs
  import opened Ancestry
  import opened Growth
  import opened Coloring
  import Dags
  import Runs
  import Stores

  /** No block of the set is unrelated to more than K others of it. */
  ghost predicate Cluster(g: Graph, s: set<Hash>)
    requires g.Valid() && s <= g.headers.Keys
  {
    forall v | v in s :: |g.Anticone(v, s)| <= K
  }

  /** The guard the coloring omits: every block unrelated to the candidate has room for one more. */
  ghost predicate HasRoom(g: Graph, v: Hash, working: set<Hash>)
    requires g.Valid() && v in g.headers && working <= g.headers.Keys
  {
    forall u | u in g.Anticone(v, working) :: |g.Anticone(u, working)| < K
  }

  /** The omitted guard holds for every candidate that joins. */
  ghost predicate Spares(g: Graph, candidates: seq<Hash>, working: set<Hash>)
    requires g.Valid() && working <= g.headers.Keys && g.Held(candidates)
    decreases |candidates|
  {
    |candidates| > 0 ==>
      var n := |candidates| - 1;
      assert candidates == candidates[..n] + [candidates[n]];
      var v, before := candidates[n], g.Greedy(candidates[..n], working);
      && Spares(g, candidates[..n], working)
      && (|g.Anticone(v, before)| <= K ==> HasRoom(g, v, before))
  }

  /** The omitted guard held at every coloring from the genesis to the block. */
  ghost predicate SparesAlong(g: Graph, b: Hash)
    requires g.Valid() && b in g.headers
    decreases g.Height(b)
  {
    b == g.genesis || (
      var sp := g.SelectedParent(b);
      && SparesAlong(g, sp)
      && Spares(g, g.QueueOver(g.headers[b].parents), g.Blues(sp) + {sp}))
  }

  /** What one more block does to an anticone. */
  lemma AnticoneGrows(g: Graph, u: Hash, v: Hash, s: set<Hash>)
    requires g.Valid() && u in g.headers && v in g.headers && s <= g.headers.Keys && v !in s
    ensures g.Anticone(u, s + {v}) == g.Anticone(u, s) + if u in g.Anticone(v, s + {u}) then {v} else {}
  {
    hide Graph.Past;
  }

  /** A candidate keeps a cluster exactly when its anticone is small and leaves room. */
  lemma JoinKeepsCluster(g: Graph, v: Hash, s: set<Hash>)
    requires g.Valid() && v in g.headers && s <= g.headers.Keys && v !in s
    ensures Cluster(g, s + {v}) <==> Cluster(g, s) && |g.Anticone(v, s)| <= K && HasRoom(g, v, s)
  {
    hide Graph.Past, Graph.Anticone;
    OwnAnticone(g, v, s);
    forall u | u in s
      ensures |g.Anticone(u, s + {v})| == |g.Anticone(u, s)| + if u in g.Anticone(v, s) then 1 else 0
    {
      AnticoneCounts(g, u, v, s);
    }
    assert forall u | u in s + {v} :: u in s || u == v;
    assert g.Anticone(v, s) <= s;
  }

  lemma OwnAnticone(g: Graph, v: Hash, s: set<Hash>)
    requires g.Valid() && v in g.headers && s <= g.headers.Keys
    ensures g.Anticone(v, s + {v}) == g.Anticone(v, s)
  {
    hide Graph.Past;
  }

  lemma AnticoneCounts(g: Graph, u: Hash, v: Hash, s: set<Hash>)
    requires g.Valid() && v in g.headers && s <= g.headers.Keys && v !in s && u in s
    ensures |g.Anticone(u, s + {v})| == |g.Anticone(u, s)| + if u in g.Anticone(v, s) then 1 else 0
  {
    hide Graph.Past;
    AnticoneGrows(g, u, v, s);
    assert s + {u} == s;
    assert v !in g.Anticone(u, s);
  }

  /** The coloring loop keeps a cluster exactly when every candidate that joins leaves room. */
  lemma {:induction false} GreedyKeepsCluster(g: Graph, candidates: seq<Hash>, working: set<Hash>)
    requires g.Valid() && working <= g.headers.Keys && g.Held(candidates)
    requires Distinct(candidates) && Elements(candidates) !! working
    ensures Cluster(g, g.Greedy(candidates, working)) <==> Cluster(g, working) && Spares(g, candidates, working)
    decreases |candidates|
  {
    hide Graph.Past, Graph.Anticone, Cluster, HasRoom;
    if candidates != [] {
      var n := |candidates| - 1;
      var v := candidates[n];
      assert candidates == candidates[..n] + [v];
      assert v !in Elements(candidates[..n]);
      GreedyKeepsCluster(g, candidates[..n], working);
      JoinKeepsCluster(g, v, g.Greedy(candidates[..n], working));
    }
  }

  /** The selected parent is related to all its blues: it changes nothing. */
  lemma SelectedKeepsCluster(g: Graph, sp: Hash)
    requires g.Valid() && sp in g.headers
    ensures sp !in g.Blues(sp)
    ensures Cluster(g, g.Blues(sp) + {sp}) <==> Cluster(g, g.Blues(sp))
  {
    hide Cluster;
    SelectedJoinsFreely(g, sp);
    JoinKeepsCluster(g, sp, g.Blues(sp));
  }

  lemma QueueIsNew(g: Graph, parents: seq<Hash>)
    requires g.Valid() && g.Held(parents) && |parents| > 0
    ensures var sp := g.SelectedOver(parents);
            && Distinct(g.QueueOver(parents)) && Elements(g.QueueOver(parents)) !! g.Blues(sp) + {sp}
  {
    QueueDistinct(g, parents);
  }

  /** One coloring: the blues are a cluster exactly when those of the selected parent are and the guard held. */
  lemma ColoringKeepsCluster(g: Graph, b: Hash)
    requires g.Valid() && g.Child(b)
    ensures var sp := g.SelectedParent(b);
            Cluster(g, g.Blues(b)) <==>
              Cluster(g, g.Blues(sp)) && Spares(g, g.QueueOver(g.headers[b].parents), g.Blues(sp) + {sp})
  {
    hide Cluster, Spares, Graph.QueueOver, Graph.Greedy, Graph.SelectedOver, Graph.Past;
    var sp := g.SelectedParent(b);
    SelectedKeepsCluster(g, sp);
    QueueIsNew(g, g.headers[b].parents);
    GreedyKeepsCluster(g, g.QueueOver(g.headers[b].parents), g.Blues(sp) + {sp});
  }

  /** A blue set is a K-cluster exactly when the omitted guard held all along its selected chain. */
  lemma {:induction false} BluesAreCluster(g: Graph, b: Hash)
    requires g.Valid() && b in g.headers
    ensures Cluster(g, g.Blues(b)) <==> SparesAlong(g, b)
    decreases g.Height(b)
  {
    if b != g.genesis {
      hide Cluster, Spares, Graph.Blues, Graph.QueueOver;
      ColoringKeepsCluster(g, b);
      BluesAreCluster(g, g.SelectedParent(b));
    }
  }

  // ----- a blue set that is no cluster

  ghost function Ids(low: nat, high: nat): (ids: set<Hash>)
    requires low > 0
    ensures forall x :: x in ids <==> low <= x <= high
    ensures low <= high + 1 ==> |ids| == high + 1 - low
  {
    if high < low then {} else Ids(low, high - 1) + {high}
  }

  lemma IdsStep(n: nat)
    requires n > 0
    ensures Ids(1, n) == Ids(1, n - 1) + {n}
  {
  }

  /** A block at time zero; its nonce is its id, so blocks of different ids have different headers. */
  function Timeless(digests: Digests, id: Hash, parents: seq<Hash>, height: nat, txIds: seq<Hash>): Block {
    Block(id, Header(parents, height, 0, id, digests.payloadRoot(txIds)), txIds)
  }

  /** Whether every id of a run, the genesis included, is the digest of its header. */
  ghost predicate Addressed(genesis: Block, calls: seq<Runs.Call>, headerId: Header -> Hash) {
    && genesis.id == headerId(genesis.header)
    && forall i | 0 <= i < |calls| :: calls[i].block.id == headerId(calls[i].block.header)
  }

  /** No two blocks of a run, the genesis included, share a header. */
  ghost predicate HeadersApart(genesis: Block, calls: seq<Runs.Call>) {
    && (forall i | 0 <= i < |calls| :: calls[i].block.header != genesis.header)
    && forall i, j | 0 <= i < j < |calls| :: calls[i].block.header != calls[j].block.header
  }

  /** A run whose headers are apart is addressed by a digest: here, the one that reads the nonce. */
  lemma NoncesAddress(genesis: Block, calls: seq<Runs.Call>)
    requires genesis.header.nonce == genesis.id
    requires forall i | 0 <= i < |calls| :: calls[i].block.header.nonce == calls[i].block.id != genesis.id
    requires forall i, j | 0 <= i < j < |calls| :: calls[i].block.id != calls[j].block.id
    ensures HeadersApart(genesis, calls) && exists headerId :: Addressed(genesis, calls, headerId)
  {
    assert Addressed(genesis, calls, (h: Header) => h.nonce);
  }

  /** An empty block at time zero. */
  function Plain(digests: Digests, id: Hash, parents: seq<Hash>, height: nat): Block {
    Timeless(digests, id, parents, height, [])
  }

  function Send(digests: Digests, policy: Policy, id: Hash, parents: seq<Hash>, height: nat): Runs.Call {
    Runs.Call(Plain(digests, id, parents, height), policy, 0)
  }

  /** Block 1 is the genesis; blocks 2 to n + 1 are a chain on it. */
  function Chain(digests: Digests, policy: Policy, n: nat): seq<Runs.Call> {
    if n == 0 then [] else Chain(digests, policy, n - 1) + [Send(digests, policy, n + 1, [n], n)]
  }

  /**
   A chain of n blocks, a block n + 2 beside it, a merge n + 3 of that block and the chain's last but one, and a
   merge n + 4 of the first merge and the chain's last.
   */
  function CrowdingRun(digests: Digests, policy: Policy, n: nat): seq<Runs.Call> {
    Chain(digests, policy, n)
    + [Send(digests, policy, n + 2, [1], 1)]
    + [Send(digests, policy, n + 3, [n, n + 2], n)]
    + [Send(digests, policy, n + 4, [n + 1, n + 3], n + 1)]
  }

  /** What a block derives, in any graph that holds it. */
  ghost predicate Derives(g: Graph, id: Hash, height: nat, past: set<Hash>, blues: set<Hash>) {
    && g.Valid() && id in g.headers && g.Height(id) == height && g.headers[id].timestamp == 0
    && g.Past(id) == past && g.Blues(id) == blues
  }

  /** Whether block i derives what a chain from the genesis gives it. */
  ghost predicate Link(g: Graph, i: Hash) {
    i > 0 && Derives(g, i, i - 1, Ids(1, i - 1), Ids(1, i - 1))
  }

  ghost predicate Chained(g: Graph, n: nat) {
    g.Valid() && g.genesis == 1 && forall i: Hash | 1 <= i <= n + 1 :: Link(g, i)
  }

  lemma DerivesStays(a: Graph, b: Graph, id: Hash, height: nat, past: set<Hash>, blues: set<Hash>)
    requires Derives(a, id, height, past, blues) && b.Valid() && Extends(a, b)
    ensures Derives(b, id, height, past, blues)
  {
    hide Graph.Past, Graph.Blues;
    PastStable(a, b, id);
    ScoreStable(a, b, id);
  }

  lemma ChainedStays(a: Graph, b: Graph, n: nat)
    requires Chained(a, n) && b.Valid() && Extends(a, b)
    ensures Chained(b, n)
  {
    hide Derives, Ids, Graph.Valid;
    forall i: Hash | 1 <= i <= n + 1 ensures Link(b, i) {
      assert Link(a, i);
      DerivesStays(a, b, i, i - 1, Ids(1, i - 1), Ids(1, i - 1));
    }
  }

  /** One accepted call, and what the new block derives. */
  lemma Accepts(
    g: Graph, digests: Digests, policy: Policy, id: Hash, parents: seq<Hash>, height: nat, txIds: seq<Hash>)
    requires g.Valid() && id !in g.headers && policy.difficultyBits == 0
    requires parents != [] && parents != [ZERO] && g.Held(parents)
    requires HeightOver(g.headers, parents) == height && forall p | p in parents :: g.headers[p].timestamp == 0
    ensures var block := Timeless(digests, id, parents, height, txIds);
            var h := After(g, digests, block, policy, 0);
            && Outcome(g, digests, block, policy, 0).Success?
            && h.Valid() && Extends(g, h) && h.genesis == g.genesis && id in h.headers && h.headers[id] == block.header
            && h.headers.Keys == g.headers.Keys + {id} && id != g.genesis
            && h.Past(id) == g.PastOver(parents) && h.Blues(id) == g.BluesOver(parents)
  {
    hide Graph.Past, Graph.Blues, Graph.PastOver, Graph.BluesOver, HeightOver, TimestampOver, FirstUnknown, Refusal;
    var block := Timeless(digests, id, parents, height, txIds);
    NothingRefuses(g, digests, policy, id, parents, height, txIds);
    assert After(g, digests, block, policy, 0) == Grown(g, id, block.header);
    GrownIsValid(g, id, block.header);
    Dags.NewBlues(g, id, block.header);
    Dags.NewPast(g, id, block.header);
  }

  lemma NothingRefuses(
    g: Graph, digests: Digests, policy: Policy, id: Hash, parents: seq<Hash>, height: nat, txIds: seq<Hash>)
    requires id !in g.headers && policy.difficultyBits == 0
    requires parents != [] && parents != [ZERO] && g.Held(parents)
    requires HeightOver(g.headers, parents) == height && forall p | p in parents :: g.headers[p].timestamp == 0
    ensures Refusal(g.headers, digests, Timeless(digests, id, parents, height, txIds), policy, 0).None?
    ensures Acceptable(g, id, Timeless(digests, id, parents, height, txIds).header)
  {
    assert TimestampOver(g.headers, parents) == 0;
  }

  lemma HeightOfTwo(g: Graph, a: Hash, b: Hash)
    requires a in g.headers && b in g.headers
    ensures HeightOver(g.headers, [a]) == g.headers[a].height + 1
    ensures HeightOver(g.headers, [a, b]) == Max(g.headers[a].height + 1, g.headers[b].height + 1)
  {
    assert [a][..0] == [] && [a, b][..1] == [a];
  }

  lemma PastOfTwo(g: Graph, a: Hash, b: Hash)
    requires g.Valid() && a in g.headers && b in g.headers
    ensures g.PastOver([a, b]) == g.View(a) + g.View(b)
  {
    hide Graph.Past;
    Stores.SingleParentPast(g, a);
    g.LastParent([a, b]);
    assert [a, b][..1] == [a];
  }

  lemma HeavierIsSelected(g: Graph, parents: seq<Hash>, light: Hash, heavy: Hash)
    requires g.Valid() && g.Held(parents) && parents != [] && Elements(parents) == {light, heavy}
    requires light in parents && heavy in parents && g.Score(light) < g.Score(heavy)
    ensures g.SelectedOver(parents) == heavy
  {
    hide Graph.Past, Graph.PastOver, Graph.Blues, Graph.Score;
    var scores := g.Scores(Elements(parents), HeightOver(g.headers, parents));
    assert g.SelectedOver(parents) == Leader(Elements(parents), scores);
    assert scores[heavy] <= scores[g.SelectedOver(parents)];
    assert g.SelectedOver(parents) in Elements(parents);
  }

  /** A merge that brings one candidate. */
  lemma OneCandidate(g: Graph, parents: seq<Hash>, sp: Hash, v: Hash)
    requires g.Valid() && g.Held(parents) && parents != [] && sp in g.headers && g.SelectedOver(parents) == sp
    requires g.PastOver(parents) - g.View(sp) == {v} && v in g.headers && g.Blues(sp) <= g.headers.Keys
    requires |g.Anticone(v, g.Blues(sp) + {sp})| <= K
    ensures g.BluesOver(parents) == g.Blues(sp) + {sp} + {v}
  {
    hide Graph.Past, Graph.PastOver, Graph.Anticone, Graph.View, Graph.Blues, Graph.Score, Graph.SelectedOver,
      Graph.QueueOver;
    var queue := g.QueueOver(parents);
    QueueDistinct(g, parents);
    Singleton(queue, v);
    assert queue[..0] == [];
    OneStep(g, v, g.Blues(sp) + {sp});
  }

  lemma Singleton(s: seq<Hash>, v: Hash)
    requires Distinct(s) && Elements(s) == {v}
    ensures s == [v]
  {
    DistinctCount(s);
    assert s[0] in Elements(s);
  }

  lemma OneStep(g: Graph, v: Hash, working: set<Hash>)
    requires g.Valid() && v in g.headers && working <= g.headers.Keys && |g.Anticone(v, working)| <= K
    ensures g.Greedy([v], working) == working + {v}
  {
    hide Graph.Past, Graph.Anticone;
    assert [v][..0] == [];
  }

  /** One more accepted call at the end of a run. */
  lemma RunGrows(root: Graph, digests: Digests, calls: seq<Runs.Call>, last: Runs.Call)
    requires Runs.AllAccepted(root, digests, calls)
    requires Outcome(Runs.Final(root, digests, calls), digests, last.block, last.policy, last.nowMs).Success?
    ensures Runs.AllAccepted(root, digests, calls + [last])
    ensures Runs.Final(root, digests, calls + [last]) ==
            After(Runs.Final(root, digests, calls), digests, last.block, last.policy, last.nowMs)
  {
    hide Outcome, After;
    assert (calls + [last])[..|calls|] == calls;
  }

  lemma GenesisLinks(digests: Digests)
    ensures var root := Stores.Root(Plain(digests, 1, [ZERO], 0));
            && Chained(root, 0) && root.headers.Keys == Ids(1, 1)
            && Runs.Final(root, digests, []) == root && Runs.AllAccepted(root, digests, [])
  {
    var root := Stores.Root(Plain(digests, 1, [ZERO], 0));
    Stores.RootIsSolo(Plain(digests, 1, [ZERO], 0));
    assert root.Past(1) == {} && root.Blues(1) == {};
  }

  lemma {:induction false} ChainRuns(digests: Digests, policy: Policy, n: nat)
    requires policy.difficultyBits == 0
    ensures var root, calls := Stores.Root(Plain(digests, 1, [ZERO], 0)), Chain(digests, policy, n);
            && Runs.AllAccepted(root, digests, calls) && Chained(Runs.Final(root, digests, calls), n)
            && Runs.Final(root, digests, calls).headers.Keys == Ids(1, n + 1)
  {
    hide Chained, Outcome, After, Runs.Final, Runs.AllAccepted, Ids, Stores.Root, Graph.Valid;
    var root := Stores.Root(Plain(digests, 1, [ZERO], 0));
    if n == 0 {
      GenesisLinks(digests);
    } else {
      var calls, last := Chain(digests, policy, n - 1), Send(digests, policy, n + 1, [n], n);
      ChainRuns(digests, policy, n - 1);
      ChainStep(Runs.Final(root, digests, calls), digests, policy, n);
      RunGrows(root, digests, calls, last);
    }
  }

  /** A block on a single parent. */
  lemma SingleStep(
    g: Graph, digests: Digests, policy: Policy, id: Hash, p: Hash, height: nat, past: set<Hash>, blues: set<Hash>,
    txIds: seq<Hash>)
    requires Derives(g, p, height, past, blues) && id !in g.headers && p != ZERO && policy.difficultyBits == 0
    ensures var block := Timeless(digests, id, [p], height + 1, txIds);
            var h := After(g, digests, block, policy, 0);
            && Outcome(g, digests, block, policy, 0).Success?
            && h.Valid() && Extends(g, h) && h.genesis == g.genesis && h.headers.Keys == g.headers.Keys + {id}
            && id != h.genesis && h.headers[id] == block.header && Derives(h, id, height + 1, past + {p}, blues + {p})
  {
    hide Graph.Past, Graph.Blues, Graph.PastOver, Graph.BluesOver, Outcome, After, HeightOver, Graph.Valid;
    HeightOfTwo(g, p, p);
    Accepts(g, digests, policy, id, [p], height + 1, txIds);
    Stores.SingleParentPast(g, p);
    Stores.SingleParentBlues(g, p);
  }

  lemma ChainStep(g: Graph, digests: Digests, policy: Policy, n: nat)
    requires n > 0 && Chained(g, n - 1) && g.headers.Keys == Ids(1, n) && policy.difficultyBits == 0
    ensures var block := Plain(digests, n + 1, [n], n);
            && Outcome(g, digests, block, policy, 0).Success?
            && Chained(After(g, digests, block, policy, 0), n)
            && After(g, digests, block, policy, 0).headers.Keys == Ids(1, n + 1)
  {
    hide Derives, Chained, Outcome, After, Graph.Valid, Ids;
    LinkedAt(g, n - 1, n);
    IdsStep(n);
    IdsStep(n + 1);
    SingleStep(g, digests, policy, n + 1, n, n - 1, Ids(1, n - 1), Ids(1, n - 1), []);
    var h := After(g, digests, Plain(digests, n + 1, [n], n), policy, 0);
    ChainedStays(g, h, n - 1);
    ChainedMore(h, n);
  }

  lemma ChainedMore(g: Graph, n: nat)
    requires n > 0 && Chained(g, n - 1) && Derives(g, n + 1, n, Ids(1, n), Ids(1, n))
    ensures Chained(g, n)
  {
    hide Derives, Graph.Valid, Ids;
    assert Link(g, n + 1);
  }

  /** Two parents, the lighter one outside the view of the other and its own past inside. */
  ghost predicate Merges(
    g: Graph, parents: seq<Hash>, light: Hash, heavy: Hash,
    lightHeight: nat, lightPast: set<Hash>, lightBlues: set<Hash>, height: nat, past: set<Hash>, blues: set<Hash>)
  {
    && Derives(g, light, lightHeight, lightPast, lightBlues) && Derives(g, heavy, height, past, blues)
    && (parents == [light, heavy] || parents == [heavy, light])
    && |lightBlues| < |blues| && lightPast <= past + {heavy} && light !in past + {heavy}
  }

  lemma MergeParts(
    g: Graph, parents: seq<Hash>, light: Hash, heavy: Hash,
    lightHeight: nat, lightPast: set<Hash>, lightBlues: set<Hash>, height: nat, past: set<Hash>, blues: set<Hash>)
    requires Merges(g, parents, light, heavy, lightHeight, lightPast, lightBlues, height, past, blues)
    ensures g.Valid() && light in g.headers && heavy in g.headers && g.Held(parents) && parents != []
    ensures Elements(parents) == {light, heavy} && light in parents && heavy in parents
    ensures g.Blues(heavy) == blues && g.Past(heavy) == past && g.Score(light) < g.Score(heavy)
    ensures HeightOver(g.headers, parents) == Max(lightHeight, height) + 1
    ensures forall p | p in parents :: g.headers[p].timestamp == 0
  {
    hide Graph.Past, Graph.Blues, HeightOver, Graph.Valid;
    assert parents[0] in parents && parents[1] in parents;
    HeightOfTwo(g, parents[0], parents[1]);
  }

  lemma MergePast(
    g: Graph, parents: seq<Hash>, light: Hash, heavy: Hash,
    lightHeight: nat, lightPast: set<Hash>, lightBlues: set<Hash>, height: nat, past: set<Hash>, blues: set<Hash>)
    requires Merges(g, parents, light, heavy, lightHeight, lightPast, lightBlues, height, past, blues)
    ensures g.Valid() && heavy in g.headers && g.Held(parents)
    ensures g.PastOver(parents) == past + {light, heavy} && g.PastOver(parents) - g.View(heavy) == {light}
  {
    hide Graph.Past, Graph.PastOver, Graph.Blues, Graph.Valid;
    PastOfTwo(g, parents[0], parents[1]);
  }

  /** What the merge derives: the lighter parent is its only candidate, and it joins. */
  lemma MergeDerives(
    g: Graph, parents: seq<Hash>, light: Hash, heavy: Hash,
    lightHeight: nat, lightPast: set<Hash>, lightBlues: set<Hash>, height: nat, past: set<Hash>, blues: set<Hash>)
    requires Merges(g, parents, light, heavy, lightHeight, lightPast, lightBlues, height, past, blues)
    requires g.Valid() && light in g.headers && blues + {heavy} <= g.headers.Keys
    requires |g.Anticone(light, blues + {heavy})| <= K
    ensures g.Held(parents) && parents != [] && g.PastOver(parents) == past + {light, heavy}
    ensures g.BluesOver(parents) == blues + {light, heavy}
  {
    hide *;
    MergeParts(g, parents, light, heavy, lightHeight, lightPast, lightBlues, height, past, blues);
    MergePast(g, parents, light, heavy, lightHeight, lightPast, lightBlues, height, past, blues);
    HeavierIsSelected(g, parents, light, heavy);
    OneCandidate(g, parents, heavy, light);
    assert blues + {heavy} + {light} == blues + {light, heavy};
  }

  lemma MergeStep(
    g: Graph, digests: Digests, policy: Policy, id: Hash, parents: seq<Hash>, light: Hash, heavy: Hash,
    lightHeight: nat, lightPast: set<Hash>, lightBlues: set<Hash>, height: nat, past: set<Hash>, blues: set<Hash>)
    requires Merges(g, parents, light, heavy, lightHeight, lightPast, lightBlues, height, past, blues)
    requires g.Valid() && light in g.headers && blues + {heavy} <= g.headers.Keys
    requires |g.Anticone(light, blues + {heavy})| <= K && id !in g.headers && policy.difficultyBits == 0
    ensures var block := Plain(digests, id, parents, Max(lightHeight, height) + 1);
            var h := After(g, digests, block, policy, 0);
            && Outcome(g, digests, block, policy, 0).Success?
            && h.Valid() && Extends(g, h) && h.headers.Keys == g.headers.Keys + {id}
            && Derives(h, id, Max(lightHeight, height) + 1, past + {light, heavy}, blues + {light, heavy})
  {
    hide Merges, Graph.Past, Graph.Blues, Graph.PastOver, Graph.BluesOver, Graph.Anticone, Outcome, After, HeightOver,
      Graph.Valid;
    MergeParts(g, parents, light, heavy, lightHeight, lightPast, lightBlues, height, past, blues);
    MergeDerives(g, parents, light, heavy, lightHeight, lightPast, lightBlues, height, past, blues);
    PairIsLong(parents, light, heavy);
    Accepts(g, digests, policy, id, parents, Max(lightHeight, height) + 1, []);
  }

  lemma PairIsLong(parents: seq<Hash>, light: Hash, heavy: Hash)
    requires light in parents && heavy in parents && light != heavy
    ensures parents != [ZERO]
  {
  }

  lemma LinkedAt(g: Graph, n: nat, i: Hash)
    requires Chained(g, n) && 1 <= i <= n + 1
    ensures Derives(g, i, i - 1, Ids(1, i - 1), Ids(1, i - 1))
  {
    hide Derives;
    assert Link(g, i);
  }

  lemma BelowIsPast(g: Graph, n: nat, i: Hash)
    requires Chained(g, n) && 1 <= i <= n + 1
    ensures g.Valid() && i in g.headers && forall x :: x in g.Past(i) <==> 1 <= x < i
  {
    hide Graph.Past, Graph.Blues, Graph.Valid;
    LinkedAt(g, n, i);
  }

  /** A block beside the chain: its only ancestor is the genesis. */
  ghost predicate Beside(g: Graph, n: nat) {
    Chained(g, n) && Derives(g, n + 2, 1, {1}, {1})
  }

  lemma BesideStays(a: Graph, b: Graph, n: nat)
    requires Beside(a, n) && b.Valid() && Extends(a, b)
    ensures Beside(b, n)
  {
    hide Chained, Derives;
    ChainedStays(a, b, n);
    DerivesStays(a, b, n + 2, 1, {1}, {1});
  }

  lemma BesideStep(g: Graph, digests: Digests, policy: Policy, n: nat)
    requires Chained(g, n) && g.headers.Keys == Ids(1, n + 1) && policy.difficultyBits == 0
    ensures var block := Plain(digests, n + 2, [1], 1);
            var h := After(g, digests, block, policy, 0);
            && Outcome(g, digests, block, policy, 0).Success?
            && Beside(h, n) && h.headers.Keys == Ids(1, n + 2)
  {
    hide Chained, Derives, Outcome, After, Graph.Valid, Ids;
    LinkedAt(g, n, 1);
    NoIds();
    SingleStep(g, digests, policy, n + 2, 1, 0, {}, {}, []);
    assert {} + {1} == {1 as Hash};
    ChainedStays(g, After(g, digests, Plain(digests, n + 2, [1], 1), policy, 0), n);
    IdsStep(n + 2);
  }

  lemma NoIds()
    ensures Ids(1, 0) == {}
  {
  }

  lemma BesideUnrelated(g: Graph, n: nat, u: Hash)
    requires Beside(g, n) && 1 <= u <= n + 1
    ensures g.Valid() && u in g.headers && n + 2 in g.headers
    ensures u !in g.Past(n + 2) && n + 2 !in g.Past(u) <==> u != 1
  {
    hide Graph.Past, Graph.Blues, Graph.Valid, Chained;
    BelowIsPast(g, n, u);
  }

  lemma BesideHolds(g: Graph, n: nat)
    requires Beside(g, n)
    ensures g.Valid() && n + 2 in g.headers && Ids(1, n + 1) <= g.headers.Keys
  {
    hide Graph.Past, Graph.Blues, Graph.Valid, Chained;
    forall u | u in Ids(1, n + 1) ensures u in g.headers {
      BesideUnrelated(g, n, u);
    }
    BesideUnrelated(g, n, 1);
  }

  /** Along the chain, only the genesis is related to the block beside it. */
  lemma BesideAnticone(g: Graph, n: nat, top: nat)
    requires Beside(g, n) && 1 <= top <= n + 1
    ensures g.Valid() && n + 2 in g.headers && Ids(1, top) <= g.headers.Keys
    ensures g.Anticone(n + 2, Ids(1, top)) == Ids(2, top)
  {
    hide Graph.Past, Graph.Blues, Graph.Valid, Beside;
    BesideHolds(g, n);
    forall u | u in Ids(1, top) ensures u in g.Anticone(n + 2, Ids(1, top)) <==> u in Ids(2, top) {
      BesideUnrelated(g, n, u);
    }
  }

  lemma FirstMerges(g: Graph, n: nat)
    requires Beside(g, n) && n >= 3
    ensures Merges(g, [n, n + 2], n + 2, n, 1, {1}, {1}, n - 1, Ids(1, n - 1), Ids(1, n - 1))
    ensures Ids(1, n - 1) + {n} == Ids(1, n) && |Ids(2, n)| == n - 1
    ensures Ids(1, n - 1) + {n + 2, n} == Ids(1, n) + {n + 2}
  {
    hide Derives, Chained;
    LinkedAt(g, n, n);
    assert |{1 as Hash}| == 1;
  }

  /** The merge of the chain's last but one with the block beside it: n - 1 blues stand beside that block. */
  lemma FirstMerge(g: Graph, digests: Digests, policy: Policy, n: nat)
    requires Beside(g, n) && g.headers.Keys == Ids(1, n + 2) && 3 <= n <= K + 1 && policy.difficultyBits == 0
    ensures var block := Plain(digests, n + 3, [n, n + 2], n);
            var h := After(g, digests, block, policy, 0);
            && Outcome(g, digests, block, policy, 0).Success?
            && Beside(h, n) && h.headers.Keys == Ids(1, n + 3)
            && Derives(h, n + 3, n, Ids(1, n) + {n + 2}, Ids(1, n) + {n + 2})
  {
    hide Derives, Beside, Chained, Outcome, After, Graph.Anticone, Graph.Valid, Ids, Merges;
    var h := After(g, digests, Plain(digests, n + 3, [n, n + 2], n), policy, 0);
    FirstMerges(g, n);
    BesideAnticone(g, n, n);
    var below := Ids(1, n - 1);
    MergeStep(g, digests, policy, n + 3, [n, n + 2], n + 2, n, 1, {1}, {1}, n - 1, below, below);
    IdsStep(n + 3);
    BesideStays(g, h, n);
  }

  lemma LastAnticone(g: Graph, n: nat, past: set<Hash>)
    requires Beside(g, n) && past == Ids(1, n) + {n + 2} && Derives(g, n + 3, n, past, past)
    ensures g.Valid() && n + 1 in g.headers && past + {n + 3} <= g.headers.Keys
    ensures |g.Anticone(n + 1, past + {n + 3})| <= 2
  {
    hide Graph.Past, Graph.Blues, Graph.Valid, Beside;
    BesideHolds(g, n);
    AboveIsRelated(g, n);
    assert g.Anticone(n + 1, past + {n + 3}) <= {n + 2, n + 3};
    CardinalityMonotone(g.Anticone(n + 1, past + {n + 3}), {n + 2, n + 3});
  }

  lemma AboveIsRelated(g: Graph, n: nat)
    requires Beside(g, n)
    ensures g.Valid() && n + 1 in g.headers && Ids(1, n) <= g.Past(n + 1)
  {
    hide Graph.Past, Graph.Blues, Graph.Valid, Chained;
    BelowIsPast(g, n, n + 1);
  }

  lemma SecondMerges(g: Graph, n: nat, past: set<Hash>)
    requires Beside(g, n) && past == Ids(1, n) + {n + 2} && Derives(g, n + 3, n, past, past)
    ensures Merges(g, [n + 1, n + 3], n + 1, n + 3, n, Ids(1, n), Ids(1, n), n, past, past)
    ensures past + {n + 1, n + 3} == Ids(1, n + 3)
  {
    hide Derives, Chained, Ids;
    LinkedAt(g, n, n + 1);
    assert |Ids(1, n) + {n + 2}| == |Ids(1, n)| + 1;
  }

  /** The merge of that block with the chain's last: the last meets two blues, and joins. */
  lemma SecondMerge(g: Graph, digests: Digests, policy: Policy, n: nat, past: set<Hash>)
    requires n > 0 && policy.difficultyBits == 0 && g.headers.Keys == Ids(1, n + 3)
    requires past == Ids(1, n) + {n + 2} && Derives(g, n + 3, n, past, past) && Beside(g, n)
    ensures var block := Plain(digests, n + 4, [n + 1, n + 3], n + 1);
            var h := After(g, digests, block, policy, 0);
            && Outcome(g, digests, block, policy, 0).Success?
            && Beside(h, n) && Derives(h, n + 4, n + 1, Ids(1, n + 3), Ids(1, n + 3))
  {
    hide Derives, Beside, Chained, Outcome, After, Graph.Anticone, Graph.Valid, Ids, Merges;
    var h := After(g, digests, Plain(digests, n + 4, [n + 1, n + 3], n + 1), policy, 0);
    SecondMerges(g, n, past);
    LastAnticone(g, n, past);
    MergeStep(g, digests, policy, n + 4, [n + 1, n + 3], n + 1, n + 3, n, Ids(1, n), Ids(1, n), n, past, past);
    BesideStays(g, h, n);
  }

  lemma MoreBeside(g: Graph, v: Hash, few: set<Hash>, many: set<Hash>)
    requires g.Valid() && v in g.headers && few <= many <= g.headers.Keys
    ensures |g.Anticone(v, few)| <= |g.Anticone(v, many)|
  {
    hide Graph.Past;
    CardinalityMonotone(g.Anticone(v, few), g.Anticone(v, many));
  }

  /** A blue of b that more than K blues of b are unrelated to. */
  ghost predicate CrowdedBlue(g: Graph, b: Hash, v: Hash) {
    g.Valid() && b in g.headers && v in g.Blues(b) && |g.Anticone(v, g.Blues(b))| > K
  }

  lemma CrowdedIsNoCluster(g: Graph, b: Hash, v: Hash)
    requires CrowdedBlue(g, b, v)
    ensures g.Valid() && b in g.headers && !Cluster(g, g.Blues(b)) && !SparesAlong(g, b)
  {
    hide Graph.Past, Graph.Anticone, SparesAlong;
    BluesAreCluster(g, b);
  }

  /** The whole chain above the genesis stands beside one blue. */
  lemma Crowded(g: Graph, n: nat)
    requires Beside(g, n) && Derives(g, n + 4, n + 1, Ids(1, n + 3), Ids(1, n + 3)) && n > K
    ensures CrowdedBlue(g, n + 4, n + 2)
  {
    hide Beside, Ids, Graph.Past, Graph.Anticone, Graph.Blues, Graph.Valid;
    BesideAnticone(g, n, n + 1);
    MoreBeside(g, n + 2, Ids(1, n + 1), g.Blues(n + 4));
  }

  lemma {:induction false} ChainIds(digests: Digests, policy: Policy, n: nat)
    ensures |Chain(digests, policy, n)| == n
    ensures forall i | 0 <= i < n ::
              Chain(digests, policy, n)[i].block.id == Chain(digests, policy, n)[i].block.header.nonce == i + 2
  {
    if n > 0 {
      ChainIds(digests, policy, n - 1);
    }
  }

  lemma CrowdingRuns(digests: Digests, policy: Policy, n: nat)
    requires policy.difficultyBits == 0 && n == K + 1
    ensures var root, calls := Stores.Root(Plain(digests, 1, [ZERO], 0)), CrowdingRun(digests, policy, n);
            var g := Runs.Final(root, digests, calls);
            && Runs.AllAccepted(root, digests, calls) && |calls| == n + 3
            && Beside(g, n) && Derives(g, n + 4, n + 1, Ids(1, n + 3), Ids(1, n + 3))
  {
    hide Chained, Beside, Derives, Outcome, After, Runs.Final, Runs.AllAccepted, Ids, Stores.Root, Graph.Valid, Chain;
    var root, calls := Stores.Root(Plain(digests, 1, [ZERO], 0)), Chain(digests, policy, n);
    ChainIds(digests, policy, n);
    ChainRuns(digests, policy, n);
    BesideStep(Runs.Final(root, digests, calls), digests, policy, n);
    RunGrows(root, digests, calls, Send(digests, policy, n + 2, [1], 1));
    calls := calls + [Send(digests, policy, n + 2, [1], 1)];
    FirstMerge(Runs.Final(root, digests, calls), digests, policy, n);
    RunGrows(root, digests, calls, Send(digests, policy, n + 3, [n, n + 2], n));
    calls := calls + [Send(digests, policy, n + 3, [n, n + 2], n)];
    SecondMerge(Runs.Final(root, digests, calls), digests, policy, n, Ids(1, n) + {n + 2});
    RunGrows(root, digests, calls, Send(digests, policy, n + 4, [n + 1, n + 3], n + 1));
  }

  lemma CrowdingIds(digests: Digests, policy: Policy, n: nat)
    ensures var genesis, calls := Plain(digests, 1, [ZERO], 0), CrowdingRun(digests, policy, n);
            HeadersApart(genesis, calls) && exists headerId :: Addressed(genesis, calls, headerId)
  {
    hide Chain;
    ChainIds(digests, policy, n);
    var calls := CrowdingRun(digests, policy, n);
    forall i | 0 <= i < |calls| ensures calls[i].block.id == calls[i].block.header.nonce == i + 2 {
    }
    NoncesAddress(Plain(digests, 1, [ZERO], 0), calls);
  }

  /**
   A blue set that is no K-cluster, reached by twelve accepted insertions after the genesis: block 11 and the nine
   blocks of the chain unrelated to it are all blue in block 13. The thirteen headers differ, so there are header
   digests that give these ids, and the code accepts the run under every one of them.
   */
  lemma BluesNeedNotCluster(digests: Digests, policy: Policy)
    requires policy.difficultyBits == 0
    ensures var genesis, calls := Plain(digests, 1, [ZERO], 0), CrowdingRun(digests, policy, 9);
            var root := Stores.Root(genesis);
            var g := Runs.Final(root, digests, calls);
            && GenesisRefusal(digests, genesis).None? && HeadersApart(genesis, calls)
            && (exists headerId :: Addressed(genesis, calls, headerId))
            && Runs.AllAccepted(root, digests, calls) && |calls| == 12
            && CrowdedBlue(g, 13, 11) && !Cluster(g, g.Blues(13)) && !SparesAlong(g, 13)
  {
    hide CrowdedBlue, Beside, Derives, Runs.Final, Runs.AllAccepted, Ids, Stores.Root, Graph.Valid, CrowdingRun,
      Cluster, SparesAlong, HeadersApart, Addressed;
    CrowdingIds(digests, policy, 9);
    var root := Stores.Root(Plain(digests, 1, [ZERO], 0));
    CrowdingRuns(digests, policy, 9);
    Crowded(Runs.Final(root, digests, CrowdingRun(digests, policy, 9)), 9);
    CrowdedIsNoCluster(Runs.Final(root, digests, CrowdingRun(digests, policy, 9)), 13, 11);
  }
}
