/**
 Growth of a graph: accepting a block changes nothing already derived, whatever the block is, so the
 derived state depends on the accepted set alone and not on the order of insertion.
 */
module Growth {
  import opened Wrappers
  import opened Ranking
  import opened Blocks
  import opened Graphs
  import opened Ancestry

  ghost predicate Extends(a: Graph, b: Graph) {
    a.genesis == b.genesis && forall x | x in a.headers :: x in b.headers && b.headers[x] == a.headers[x]
  }

  lemma {:induction false} HeightOverStable(a: Graph, b: Graph, parents: seq<Hash>)
    requires Extends(a, b) && a.Held(parents)
    ensures b.Held(parents)
    ensures HeightOver(a.headers, parents) == HeightOver(b.headers, parents)
    ensures TimestampOver(a.headers, parents) == TimestampOver(b.headers, parents)
    decreases |parents|
  {
    if parents != [] {
      HeightOverStable(a, b, parents[..|parents| - 1]);
    }
  }

  lemma {:induction false} PastOverStable(a: Graph, b: Graph, parents: seq<Hash>)
    requires a.Valid() && b.Valid() && Extends(a, b) && a.Held(parents)
    ensures a.PastOver(parents) == b.PastOver(parents)
    decreases HeightOver(a.headers, parents), 0, |parents|
  {
    if |parents| > 0 {
      var n := |parents| - 1;
      PastOverStable(a, b, parents[..n]);
      PastStable(a, b, parents[n]);
    }
  }

  lemma {:induction false} PastStable(a: Graph, b: Graph, x: Hash)
    requires a.Valid() && b.Valid() && Extends(a, b) && x in a.headers
    ensures a.Past(x) == b.Past(x)
    decreases a.Height(x), 1
  {
    if x != a.genesis {
      PastOverStable(a, b, a.headers[x].parents);
    }
  }

  lemma AnticoneStable(a: Graph, b: Graph, v: Hash, among: set<Hash>)
    requires a.Valid() && b.Valid() && Extends(a, b)
    requires v in a.headers && among <= a.headers.Keys
    ensures a.Anticone(v, among) == b.Anticone(v, among)
  {
    PastStable(a, b, v);
    forall u | u in among ensures a.Past(u) == b.Past(u) {
      PastStable(a, b, u);
    }
  }

  lemma {:induction false} GreedyStable(a: Graph, b: Graph, candidates: seq<Hash>, working: set<Hash>)
    requires a.Valid() && b.Valid() && Extends(a, b)
    requires working <= a.headers.Keys && a.Held(candidates)
    ensures a.Greedy(candidates, working) == b.Greedy(candidates, working)
    decreases |candidates|
  {
    if candidates != [] {
      var n := |candidates| - 1;
      GreedyStable(a, b, candidates[..n], working);
      AnticoneStable(a, b, candidates[n], a.Greedy(candidates[..n], working));
    }
  }

  lemma {:induction false} ScoreStable(a: Graph, b: Graph, x: Hash)
    requires a.Valid() && b.Valid() && Extends(a, b) && x in a.headers
    ensures a.Blues(x) == b.Blues(x) && a.Score(x) == b.Score(x)
    decreases a.Height(x), 5
  {
    if x != a.genesis {
      BluesOverStable(a, b, a.headers[x].parents);
    }
  }

  lemma {:induction false} SelectedOverStable(a: Graph, b: Graph, parents: seq<Hash>)
    requires a.Valid() && b.Valid() && Extends(a, b) && a.Held(parents) && |parents| > 0
    ensures a.SelectedOver(parents) == b.SelectedOver(parents)
    decreases HeightOver(a.headers, parents), 1
  {
    ScoresStable(a, b, Elements(parents), Elements(parents), HeightOver(a.headers, parents));
    HeightOverStable(a, b, parents);
  }

  lemma {:induction false} QueueOverStable(a: Graph, b: Graph, parents: seq<Hash>)
    requires a.Valid() && b.Valid() && Extends(a, b) && a.Held(parents) && |parents| > 0
    ensures a.QueueOver(parents) == b.QueueOver(parents)
    decreases HeightOver(a.headers, parents), 3
  {
    NewsStable(a, b, parents);
    var newsA := a.PastOver(parents) - a.View(a.SelectedOver(parents));
    var newsB := b.PastOver(parents) - b.View(b.SelectedOver(parents));
    ScoresStable(a, b, newsA, newsB, HeightOver(a.headers, parents));
    HeightOverStable(a, b, parents);
  }

  lemma {:induction false} NewsStable(a: Graph, b: Graph, parents: seq<Hash>)
    requires a.Valid() && b.Valid() && Extends(a, b) && a.Held(parents) && |parents| > 0
    ensures a.PastOver(parents) - a.View(a.SelectedOver(parents)) ==
            b.PastOver(parents) - b.View(b.SelectedOver(parents))
    decreases HeightOver(a.headers, parents), 2
  {
    SelectedOverStable(a, b, parents);
    PastOverStable(a, b, parents);
    PastStable(a, b, a.SelectedOver(parents));
  }

  lemma {:induction false} ScoresStable(a: Graph, b: Graph, idsA: set<Hash>, idsB: set<Hash>, bound: nat)
    requires a.Valid() && b.Valid() && Extends(a, b) && idsA == idsB
    requires forall x | x in idsA :: x in a.headers && a.Height(x) < bound
    ensures a.Scores(idsA, bound) == b.Scores(idsB, bound)
    decreases bound, 0
  {
    forall x | x in idsA ensures a.Score(x) == b.Score(x) {
      ScoreStable(a, b, x);
    }
  }

  lemma {:induction false} BluesOverStable(a: Graph, b: Graph, parents: seq<Hash>)
    requires a.Valid() && b.Valid() && Extends(a, b) && a.Held(parents) && |parents| > 0
    ensures a.BluesOver(parents) == b.BluesOver(parents)
    decreases HeightOver(a.headers, parents), 4
  {
    hide Graph.Past, Graph.PastOver, Graph.Greedy, Graph.SelectedOver, Graph.QueueOver;
    var sp := a.SelectedOver(parents);
    SelectedOverStable(a, b, parents);
    QueueOverStable(a, b, parents);
    ScoreStable(a, b, sp);
    a.ParentView(parents, sp);
    GreedyStable(a, b, a.QueueOver(parents), a.Blues(sp) + {sp});
  }

  lemma SelectedStable(a: Graph, b: Graph, x: Hash)
    requires a.Valid() && b.Valid() && Extends(a, b) && a.Child(x)
    ensures a.SelectedParent(x) == b.SelectedParent(x)
  {
    SelectedOverStable(a, b, a.headers[x].parents);
  }

  lemma FreshStable(a: Graph, b: Graph, x: Hash)
    requires a.Valid() && b.Valid() && Extends(a, b) && x in a.headers
    ensures a.Fresh(x) == b.Fresh(x)
  {
    if x != a.genesis {
      FreshNewsStable(a, b, x);
      HeightsStable(a, b, a.View(x) - a.View(a.SelectedParent(x)));
    }
  }

  lemma FreshNewsStable(a: Graph, b: Graph, x: Hash)
    requires a.Valid() && b.Valid() && Extends(a, b) && a.Child(x)
    ensures a.View(x) - a.View(a.SelectedParent(x)) == b.View(x) - b.View(b.SelectedParent(x))
  {
    SelectedStable(a, b, x);
    PastStable(a, b, x);
    PastStable(a, b, a.SelectedParent(x));
  }

  lemma HeightsStable(a: Graph, b: Graph, ids: set<Hash>)
    requires Extends(a, b) && ids <= a.headers.Keys
    ensures ids <= b.headers.Keys && a.Heights(ids) == b.Heights(ids)
  {
  }

  lemma {:induction false} OrderStable(a: Graph, b: Graph, x: Hash)
    requires a.Valid() && b.Valid() && Extends(a, b) && x in a.headers
    ensures a.Order(x) == b.Order(x)
    decreases a.Height(x)
  {
    FreshStable(a, b, x);
    if x != a.genesis {
      SelectedStable(a, b, x);
      OrderStable(a, b, a.SelectedParent(x));
    }
  }

  // ----- one accepted block

  ghost function Grown(g: Graph, id: Hash, header: Header): Graph {
    Graph(g.genesis, g.headers[id := header])
  }

  /** Whether a header may be accepted under an id: new, with parents, all held and lower. */
  ghost predicate Acceptable(g: Graph, id: Hash, header: Header) {
    && id !in g.headers
    && |header.parents| > 0
    && forall p | p in header.parents :: p in g.headers && g.headers[p].height < header.height
  }

  /** The verdict of inserting a block. */
  function Outcome(g: Graph, digests: Digests, block: Block, policy: Policy, nowMs: nat): Result<Hash, DagError> {
    var refusal := Refusal(g.headers, digests, block, policy, nowMs);
    if refusal.Some? then Failure(refusal.value) else Success(block.id)
  }

  /** The graph after inserting a block: grown by it, or the same when a rule refused it. */
  ghost function After(g: Graph, digests: Digests, block: Block, policy: Policy, nowMs: nat): Graph {
    if Outcome(g, digests, block, policy, nowMs).Success? then Grown(g, block.id, block.header) else g
  }

  lemma GrownIsValid(g: Graph, id: Hash, header: Header)
    requires g.Valid() && Acceptable(g, id, header)
    ensures Grown(g, id, header).Valid() && Extends(g, Grown(g, id, header))
  {
  }

  lemma ChildrenGrow(g: Graph, id: Hash, header: Header, b: Hash)
    requires g.Valid() && Acceptable(g, id, header)
    ensures Grown(g, id, header).Children(b) ==
            g.Children(b) + if b in header.parents then {id} else {}
  {
  }

  lemma TipsGrow(g: Graph, id: Hash, header: Header)
    requires g.Valid() && Acceptable(g, id, header)
    ensures Grown(g, id, header).Tips() == g.Tips() - Elements(header.parents) + {id}
  {
    var h := Grown(g, id, header);
    forall b | b in g.headers
      ensures b in h.Tips() <==> b in g.Tips() && b !in header.parents
    {
      if b in h.Tips() {
        assert b !in h.headers[id].parents;
        assert forall c | c in g.headers :: h.headers[c] == g.headers[c];
      }
    }
  }

  lemma NewHasNoChild(g: Graph, id: Hash, header: Header)
    requires g.Valid() && Acceptable(g, id, header)
    ensures Grown(g, id, header).Children(id) == {}
  {
    ChildrenGrow(g, id, header, id);
  }
}
