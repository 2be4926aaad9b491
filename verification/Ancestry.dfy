/**
 Ancestry and blue scores: pasts are transitive, the blue score grows strictly along all ancestry, so
 a parent that is an ancestor of another parent is never selected and the best tip outscores every
 block of the graph.
 */
module Ancestry {
  import opened Ranking
  import opened Blocks
  import opened Graphs

  /** An ancestor over a parent list is in the view of one of the parents. */
  lemma {:induction false} AncestorThroughParent(g: Graph, parents: seq<Hash>, x: Hash) returns (p: Hash)
    requires g.Valid() && g.Held(parents) && x in g.PastOver(parents)
    ensures p in parents && x in g.View(p)
    decreases |parents|
  {
    var n := |parents| - 1;
    if x in g.View(parents[n]) {
      p := parents[n];
    } else {
      p := AncestorThroughParent(g, parents[..n], x);
    }
  }

  /** The past of a block is closed under ancestry. */
  lemma {:induction false} PastTransitive(g: Graph, b: Hash, x: Hash)
    requires g.Valid() && b in g.headers && x in g.Past(b)
    ensures g.View(x) <= g.Past(b)
    decreases g.Height(b)
  {
    var parents := g.headers[b].parents;
    var p := AncestorThroughParent(g, parents, x);
    g.ParentView(parents, p);
    if x != p {
      PastTransitive(g, p, x);
    }
  }

  /** The selected parent is blue and its blues stay blue. */
  lemma BluesInherited(g: Graph, b: Hash)
    requires g.Valid() && g.Child(b)
    ensures g.Blues(g.SelectedParent(b)) + {g.SelectedParent(b)} <= g.Blues(b)
  {
  }

  /** A block outscores its selected parent. */
  lemma ScoreOverSelected(g: Graph, b: Hash)
    requires g.Valid() && g.Child(b)
    ensures g.Score(g.SelectedParent(b)) < g.Score(b)
  {
    var sp := g.SelectedParent(b);
    BluesInherited(g, b);
    assert sp !in g.Blues(sp);
    CardinalityMonotone(g.Blues(sp) + {sp}, g.Blues(b));
  }

  lemma {:induction false} CardinalityMonotone<T>(a: set<T>, b: set<T>)
    requires a <= b
    ensures |a| <= |b|
    ensures |a| == |b| ==> a == b
  {
    assert b == a + (b - a);
    assert |b| == |a| + |b - a|;
    if |a| == |b| {
      assert b - a == {};
    }
  }

  lemma ScoreOverParents(g: Graph, b: Hash, p: Hash)
    requires g.Valid() && g.Child(b) && p in g.headers[b].parents
    ensures g.Score(p) <= g.Score(g.SelectedParent(b)) < g.Score(b)
  {
    ScoreOverSelected(g, b);
    var parents := Elements(g.headers[b].parents);
    var score := g.Scores(parents, HeightOver(g.headers, g.headers[b].parents));
    assert g.SelectedParent(b) == Leader(parents, score);
    assert score[p] <= score[g.SelectedParent(b)];
  }

  /** The blue score grows strictly along all ancestry, not along selected parents alone. */
  lemma {:induction false} ScoreGrows(g: Graph, b: Hash, x: Hash)
    requires g.Valid() && b in g.headers && x in g.Past(b)
    ensures g.Score(x) < g.Score(b)
    decreases g.Height(b)
  {
    var p := AncestorThroughParent(g, g.headers[b].parents, x);
    ScoreOverParents(g, b, p);
    if x != p {
      ScoreGrows(g, p, x);
    }
  }

  /** A parent that is an ancestor of another parent is never selected. */
  lemma RedundantParentNeverSelected(g: Graph, b: Hash, p: Hash, q: Hash)
    requires g.Valid() && g.Child(b)
    requires p in g.headers[b].parents && q in g.headers[b].parents
    requires p in g.Past(q)
    ensures g.SelectedParent(b) != p
  {
    ScoreGrows(g, q, p);
    ScoreOverParents(g, b, q);
  }

  /** Every block is a tip or an ancestor of one. */
  lemma {:induction false} SomeTipAbove(g: Graph, b: Hash, ceiling: nat) returns (t: Hash)
    requires g.Valid() && b in g.headers
    requires forall x | x in g.headers :: g.Height(x) <= ceiling
    ensures t in g.Tips() && b in g.View(t)
    decreases ceiling - g.Height(b)
  {
    if g.Childless(b) {
      t := b;
    } else {
      var c :| c in g.headers && c != g.genesis && b in g.headers[c].parents;
      t := SomeTipAbove(g, c, ceiling);
      g.ParentView(g.headers[c].parents, b);
      if c != t {
        PastTransitive(g, t, c);
      }
    }
  }

  lemma {:induction false} Ceiling(g: Graph, ids: set<Hash>) returns (ceiling: nat)
    requires ids <= g.headers.Keys
    ensures forall x | x in ids :: g.Height(x) <= ceiling
    decreases |ids|
  {
    if ids == {} {
      ceiling := 0;
    } else {
      var x :| x in ids;
      var rest := Ceiling(g, ids - {x});
      ceiling := Max(rest, g.Height(x));
    }
  }

  lemma TipAbove(g: Graph, b: Hash) returns (t: Hash)
    requires g.Valid() && b in g.headers
    ensures t in g.Tips() && b in g.View(t)
  {
    var ceiling := Ceiling(g, g.headers.Keys);
    t := SomeTipAbove(g, b, ceiling);
  }

  lemma TipsExist(g: Graph)
    requires g.Valid()
    ensures g.Tips() != {}
  {
    var t := TipAbove(g, g.genesis);
  }

  ghost function ScoresOf(g: Graph, ids: set<Hash>): (r: map<Hash, nat>)
    requires g.Valid() && ids <= g.headers.Keys
    ensures r.Keys == ids
    ensures forall t | t in ids :: r[t] == g.Score(t)
    decreases |ids|
  {
    if ids == {} then map[] else
      var t :| t in ids;
      ScoresOf(g, ids - {t})[t := g.Score(t)]
  }

  ghost function TipScores(g: Graph): (r: map<Hash, nat>)
    requires g.Valid()
    ensures r.Keys == g.Tips()
    ensures forall t | t in g.Tips() :: r[t] == g.Score(t)
  {
    ScoresOf(g, g.Tips())
  }

  /** The tip of highest score, ties by the smallest id. */
  ghost function BestTip(g: Graph): (t: Hash)
    requires g.Valid()
    ensures t in g.Tips()
  {
    TipsExist(g);
    Leader(g.Tips(), TipScores(g))
  }

  /** The best tip has the greatest score of the whole graph; only tips can tie with it. */
  lemma BestTipIsHeaviest(g: Graph, b: Hash)
    requires g.Valid() && b in g.headers
    ensures g.Score(b) <= g.Score(BestTip(g))
    ensures g.Score(b) == g.Score(BestTip(g)) ==> b in g.Tips() && BestTip(g) <= b
  {
    var t := TipAbove(g, b);
    if b != t {
      ScoreGrows(g, t, b);
    }
    assert TipScores(g)[t] <= TipScores(g)[BestTip(g)];
  }
}
