/**
 The derived state of a graph, block by block, in terms of the headers and of the state of lower blocks alone: these
 conditions leave one answer for the past, the selected parent, the blue set and the consensus order of every block.
 */
module Exactness {
  import opened Ranking
  import opened Blocks
  import opened Graphs
  import opened Ancestry
  import opened Coloring
  import opened Ordering
  import Dags

  /** The genesis has no past and no blues, scores one and is its own order. */
  lemma GenesisExactly(g: Graph)
    requires g.Valid()
    ensures g.Past(g.genesis) == {} && g.Blues(g.genesis) == {} && g.Score(g.genesis) == 1
    ensures g.Order(g.genesis) == [g.genesis]
  {
  }

  /** The past of a block is its parents and theirs. */
  lemma PastExactly(g: Graph, b: Hash, x: Hash)
    requires g.Valid() && g.Child(b)
    ensures x in g.Past(b) <==> exists p | p in g.headers[b].parents :: x == p || x in g.Past(p)
  {
    var parents := g.headers[b].parents;
    if x in g.Past(b) {
      var p := AncestorThroughParent(g, parents, x);
    }
    forall p | p in parents && (x == p || x in g.Past(p)) ensures x in g.Past(b) {
      g.ParentView(parents, p);
    }
  }

  lemma TiedParentIsGreater(g: Graph, b: Hash, p: Hash)
    requires g.Valid() && g.Child(b) && p in g.headers[b].parents
    requires g.Score(p) == g.Score(g.SelectedParent(b))
    ensures g.SelectedParent(b) <= p
  {
    hide Graph.Past, Graph.PastOver, Graph.Blues, Graph.Score;
    var header := g.headers[b];
    var parents := Elements(header.parents);
    var score := g.Scores(parents, HeightOver(g.headers, header.parents));
    assert g.SelectedParent(b) == Leader(parents, score);
    assert p in parents && score[p] == score[g.SelectedParent(b)];
  }

  /** The selected parent is the parent that comes before every other, by higher score, then by smaller id. */
  lemma SelectedExactly(g: Graph, b: Hash, sp: Hash)
    requires g.Valid() && g.Child(b)
    ensures g.SelectedParent(b) == sp <==>
            && sp in g.headers[b].parents
            && forall p | p in g.headers[b].parents && p != sp ::
                 g.Score(p) < g.Score(sp) || (g.Score(p) == g.Score(sp) && sp < p)
  {
    hide Graph.PastOver, Graph.Blues, Graph.Score, Graph.SelectedParent, Graph.Past;
    var selected := g.SelectedParent(b);
    forall p | p in g.headers[b].parents && p != selected
      ensures g.Score(p) < g.Score(selected) || (g.Score(p) == g.Score(selected) && selected < p)
    {
      ScoreOverParents(g, b, p);
      if g.Score(p) == g.Score(selected) {
        TiedParentIsGreater(g, b, p);
      }
    }
  }

  // ----- the blue set

  /** What the coloring loop has accepted midway is what it accepts in the end, as far as it got. */
  lemma {:induction false} GreedyPrefix(g: Graph, queue: seq<Hash>, working: set<Hash>, i: nat)
    requires g.Valid() && g.Held(queue) && working <= g.headers.Keys && i <= |queue|
    requires Distinct(queue) && Elements(queue) !! working
    ensures g.Held(queue[..i])
    ensures g.Greedy(queue[..i], working) == g.Greedy(queue, working) * (working + Elements(queue[..i]))
    decreases |queue|
  {
    hide Graph.Past, Graph.PastOver, Graph.Valid;
    if i == |queue| {
      assert queue[..i] == queue;
    } else {
      var n := |queue| - 1;
      var front := queue[..n];
      assert queue == front + [queue[n]] && front[..i] == queue[..i];
      ElementsAppend(front, [queue[n]]);
      GreedyPrefix(g, front, working, i);
      assert queue[n] !in working + Elements(queue[..i]);
    }
  }

  /** The blocks of a set that are neither ancestors nor descendants of a block, itself left out. */
  ghost function Unrelated(g: Graph, v: Hash, among: set<Hash>): (r: set<Hash>)
    requires g.Valid() && v in g.headers && among <= g.headers.Keys
    ensures forall u :: u in r <==> u in among && u != v && u !in g.Past(v) && v !in g.Past(u)
  {
    g.Anticone(v, among)
  }

  /** A candidate joins exactly when it is unrelated to at most eight blocks accepted before it. */
  lemma JoinsExactly(g: Graph, queue: seq<Hash>, working: set<Hash>, i: nat)
    requires g.Valid() && g.Held(queue) && working <= g.headers.Keys && i < |queue|
    requires Distinct(queue) && Elements(queue) !! working
    ensures var blues := g.Greedy(queue, working);
            && blues <= g.headers.Keys && queue[i] in g.headers
            && (queue[i] in blues <==>
                |Unrelated(g, queue[i], blues * (working + Elements(queue[..i])))| <= 8)
  {
    hide Graph.Past, Graph.PastOver, Graph.Valid, Graph.Greedy;
    var v := queue[i];
    GreedyPrefix(g, queue, working, i);
    GreedyPrefix(g, queue, working, i + 1);
    Dags.GreedyStep(g, queue, i, working);
    assert queue[..i + 1] == queue[..i] + [v];
    ElementsAppend(queue[..i], [v]);
    assert v in Elements(queue) && v !in queue[..i];
  }

  lemma ParentsAreHeld(g: Graph, b: Hash)
    requires g.Valid() && g.Child(b)
    ensures g.Held(g.headers[b].parents) && |g.headers[b].parents| > 0
  {
  }

  /** The candidates of a coloring: what the selected parent does not see, the highest score first. */
  lemma QueueExactly(g: Graph, b: Hash)
    requires g.Valid() && g.Child(b) && g.Held(g.headers[b].parents) && |g.headers[b].parents| > 0
    ensures var sp, past, queue := g.SelectedParent(b), g.Past(b), g.QueueOver(g.headers[b].parents);
            && Distinct(queue)
            && (forall x :: x in queue <==> x in past && x != sp && x !in g.Past(sp))
            && forall i, j | 0 <= i < j < |queue| ::
                 g.Score(queue[i]) > g.Score(queue[j])
                 || (g.Score(queue[i]) == g.Score(queue[j]) && queue[i] < queue[j])
  {
    hide Graph.Past, Graph.PastOver, Graph.Valid, Graph.Score, Graph.SelectedOver;
    var parents := g.headers[b].parents;
    var queue, bound := g.QueueOver(parents), HeightOver(g.headers, parents);
    var news := PastBeyond(g, b);
    var rank := Descending(news, g.Scores(news, bound));
    SortedAscends(news, rank);
    forall x ensures x in queue <==> x in news {
      assert x in queue <==> x in Elements(queue);
    }
    forall i, j | 0 <= i < j < |queue|
      ensures g.Score(queue[i]) > g.Score(queue[j])
              || (g.Score(queue[i]) == g.Score(queue[j]) && queue[i] < queue[j])
    {
      assert Before(queue[i], queue[j], rank);
    }
  }

  ghost function PastBeyond(g: Graph, b: Hash): (r: set<Hash>)
    requires g.Valid() && g.Child(b)
    ensures r == g.PastOver(g.headers[b].parents) - g.View(g.SelectedOver(g.headers[b].parents))
    ensures forall x :: x in r <==>
                        x in g.Past(b) && x != g.SelectedParent(b) && x !in g.Past(g.SelectedParent(b))
  {
    g.PastOver(g.headers[b].parents) - g.View(g.SelectedOver(g.headers[b].parents))
  }

  /**
   The blues of a block: its selected parent with all the blues of that, and of the rest of the past, taken by
   descending score then ascending id, exactly each block unrelated to at most eight blues accepted before it.
   */
  lemma BluesExactly(g: Graph, b: Hash) returns (queue: seq<Hash>)
    requires g.Valid() && g.Child(b)
    ensures var sp, past := g.SelectedParent(b), g.Past(b);
            && (forall x :: x in queue <==> x in past && x != sp && x !in g.Past(sp))
            && forall i, j | 0 <= i < j < |queue| ::
                 g.Score(queue[i]) > g.Score(queue[j])
                 || (g.Score(queue[i]) == g.Score(queue[j]) && queue[i] < queue[j])
    ensures var sp, blues := g.SelectedParent(b), g.Blues(b);
            var inherited := g.Blues(sp) + {sp};
            && inherited <= blues <= inherited + Elements(queue) && g.Score(b) == 1 + |blues|
            && forall i | 0 <= i < |queue| ::
                 queue[i] in blues <==>
                 |Unrelated(g, queue[i], blues * (inherited + Elements(queue[..i])))| <= 8
  {
    hide Graph.Past, Graph.PastOver, Graph.Greedy, Graph.QueueOver, Graph.Valid, Graph.SelectedOver;
    var parents, sp := g.headers[b].parents, g.SelectedParent(b);
    ParentsAreHeld(g, b);
    queue := g.QueueOver(parents);
    QueueExactly(g, b);
    forall i | 0 <= i < |queue|
      ensures queue[i] in g.Blues(b) <==>
              |Unrelated(g, queue[i], g.Blues(b) * (g.Blues(sp) + {sp} + Elements(queue[..i])))| <= 8
    {
      JoinsExactly(g, queue, g.Blues(sp) + {sp}, i);
    }
  }

  // ----- the order

  /** Earlier in the order: lower, or as high with a smaller id. */
  lemma FreshIsRanked(g: Graph, b: Hash, m: nat, n: nat)
    requires g.Valid() && g.Child(b) && m < n < |g.Fresh(b)|
    ensures var x, y := g.Fresh(b)[m], g.Fresh(b)[n];
            && x in g.headers && y in g.headers
            && (g.headers[x].height < g.headers[y].height || (g.headers[x].height == g.headers[y].height && x < y))
  {
    hide Graph.Past, Graph.PastOver, Graph.Valid, Graph.SelectedParent, Graph.Fresh;
    var news := g.Fresh(b);
    FreshElements(g, b);
    assert news[m] in Elements(news) && news[n] in Elements(news);
    assert Before(news[m], news[n], g.Heights(Elements(news)));
  }

  /** The order of a block goes on from that of its selected parent, by ascending height then ascending id. */
  lemma OrderExactly(g: Graph, b: Hash)
    requires g.Valid() && g.Child(b)
    ensures var base, order := g.Order(g.SelectedParent(b)), g.Order(b);
            && base <= order
            && (forall x :: x in order <==> x == b || x in g.Past(b))
            && forall i, j | |base| <= i < j < |order| ::
                 g.headers[order[i]].height < g.headers[order[j]].height
                 || (g.headers[order[i]].height == g.headers[order[j]].height && order[i] < order[j])
  {
    hide Graph.Past, Graph.PastOver, Graph.Valid, Graph.SelectedParent, Graph.Fresh, Graph.Order;
    var base, order, news := g.Order(g.SelectedParent(b)), g.Order(b), g.Fresh(b);
    OrderStep(g, b);
    OrderListsView(g, b);
    forall x ensures x in order <==> x == b || x in g.Past(b) {
      assert x in order <==> x in Elements(order);
    }
    forall i, j | |base| <= i < j < |order|
      ensures g.headers[order[i]].height < g.headers[order[j]].height
              || (g.headers[order[i]].height == g.headers[order[j]].height && order[i] < order[j])
    {
      FreshIsRanked(g, b, i - |base|, j - |base|);
    }
  }

  /** The best tip comes before every other held block, by higher score, then by smaller id. */
  lemma BestTipExactly(g: Graph, b: Hash)
    requires g.Valid() && b in g.headers
    ensures BestTip(g) == b <==>
            forall x | x in g.headers && x != b ::
              g.Score(x) < g.Score(b) || (g.Score(x) == g.Score(b) && b < x)
  {
    var t := BestTip(g);
    forall x | x in g.headers && x != t ensures g.Score(x) < g.Score(t) || (g.Score(x) == g.Score(t) && t < x) {
      BestTipIsHeaviest(g, x);
    }
  }
}
