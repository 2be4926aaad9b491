/**
 The width of blue sets. The coloring bounds the anticone of each candidate when it joins and never
 looks again at the blues already inside, so a blue set need not be a K-cluster. What does hold is
 proved here: blues have an insertion sequence in which each block met at most K unrelated blues, and
 therefore no K + 2 blues of one block are pairwise unrelated.
 */
module Coloring {
  import opened Ranking
  import opened Blocks
  import opened Graphs
  import opened Ancestry

  /** A sequence of distinct blocks, each with at most K of its predecessors in its anticone. */
  ghost predicate Guarded(g: Graph, s: seq<Hash>)
    requires g.Valid() && g.Held(s)
    decreases |s|
  {
    |s| > 0 ==>
      var n := |s| - 1;
      && Guarded(g, s[..n])
      && s[n] !in s[..n]
      && |g.Anticone(s[n], Elements(s[..n]))| <= K
  }

  ghost predicate Antichain(g: Graph, a: set<Hash>)
    requires g.Valid() && a <= g.headers.Keys
  {
    forall x, y | x in a && y in a :: x !in g.Past(y)
  }

  lemma GuardedAppend(g: Graph, s: seq<Hash>, v: Hash)
    requires g.Valid() && g.Held(s) && Guarded(g, s) && v in g.headers && v !in s
    requires |g.Anticone(v, Elements(s))| <= K
    ensures g.Held(s + [v]) && Guarded(g, s + [v])
    ensures Elements(s + [v]) == Elements(s) + {v}
  {
    assert (s + [v])[..|s|] == s;
  }

  /** The coloring loop extends an insertion sequence of its working set by the candidates it accepts. */
  lemma {:induction false} GreedySequence(g: Graph, candidates: seq<Hash>, s: seq<Hash>) returns (t: seq<Hash>)
    requires g.Valid() && g.Held(candidates) && g.Held(s) && Guarded(g, s)
    requires Distinct(candidates) && Elements(candidates) !! Elements(s)
    ensures g.Held(t) && Guarded(g, t)
    ensures Elements(t) == g.Greedy(candidates, Elements(s))
    decreases |candidates|
  {
    hide Graph.Past, Graph.PastOver;
    if candidates == [] {
      t := s;
    } else {
      var n := |candidates| - 1;
      var v := candidates[n];
      assert candidates == candidates[..n] + [v];
      t := GreedySequence(g, candidates[..n], s);
      assert v !in Elements(candidates[..n]) + Elements(s);
      if |g.Anticone(v, Elements(t))| <= K {
        GuardedAppend(g, t, v);
        t := t + [v];
      }
    }
  }

  /** The selected parent has every blue of its own in its past. */
  lemma SelectedJoinsFreely(g: Graph, sp: Hash)
    requires g.Valid() && sp in g.headers
    ensures g.Anticone(sp, g.Blues(sp)) == {}
  {
  }

  lemma QueueDistinct(g: Graph, parents: seq<Hash>)
    requires g.Valid() && g.Held(parents) && |parents| > 0
    ensures Distinct(g.QueueOver(parents))
  {
    var news := g.PastOver(parents) - g.View(g.SelectedOver(parents));
    SortedAscends(news, Descending(news, g.Scores(news, HeightOver(g.headers, parents))));
  }

  /** Every blue set has an insertion sequence, threaded through the selected-parent recursion. */
  lemma {:induction false} BlueSequence(g: Graph, b: Hash) returns (s: seq<Hash>)
    requires g.Valid() && b in g.headers
    ensures g.Held(s) && Guarded(g, s) && Elements(s) == g.Blues(b)
    decreases g.Height(b)
  {
    if b == g.genesis {
      s := [];
    } else {
      var sp := g.SelectedParent(b);
      var inherited := BlueSequence(g, sp);
      SelectedJoinsFreely(g, sp);
      GuardedAppend(g, inherited, sp);
      QueueDistinct(g, g.headers[b].parents);
      s := GreedySequence(g, g.QueueOver(g.headers[b].parents), inherited + [sp]);
    }
  }

  lemma {:induction false} GuardedWidth(g: Graph, s: seq<Hash>, a: set<Hash>)
    requires g.Valid() && g.Held(s) && Guarded(g, s)
    requires a <= Elements(s) && Antichain(g, a)
    ensures |a| <= K + 1
    decreases |s|
  {
    if a != {} {
      var n := |s| - 1;
      assert s == s[..n] + [s[n]];
      if s[n] in a {
        var others := a - {s[n]};
        assert others <= g.Anticone(s[n], Elements(s[..n]));
        CardinalityMonotone(others, g.Anticone(s[n], Elements(s[..n])));
      } else {
        GuardedWidth(g, s[..n], a);
      }
    }
  }

  /** Pairwise unrelated blues of one block number at most K + 1. */
  lemma BlueWidth(g: Graph, b: Hash, a: set<Hash>)
    requires g.Valid() && b in g.headers
    requires a <= g.Blues(b) && Antichain(g, a)
    ensures |a| <= K + 1
  {
    var s := BlueSequence(g, b);
    GuardedWidth(g, s, a);
  }
}
