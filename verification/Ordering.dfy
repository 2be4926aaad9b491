/**
 The consensus order: a listing of the view without repetition, topological, append-only along
 selected-parent chains, and the exactness of the one-lookup test that decides whether an order
 extends another.
 */
module Ordering {
  import opened Ranking
  import opened Blocks
  import opened Graphs
  import opened Ancestry

  lemma SelectedView(g: Graph, b: Hash)
    requires g.Valid() && g.Child(b)
    ensures g.View(g.SelectedParent(b)) <= g.Past(b)
  {
    g.ParentView(g.headers[b].parents, g.SelectedParent(b));
  }

  lemma FreshElements(g: Graph, b: Hash)
    requires g.Valid() && g.Child(b)
    ensures Elements(g.Fresh(b)) == g.View(b) - g.View(g.SelectedParent(b))
    ensures Distinct(g.Fresh(b)) && Ascending(g.Fresh(b), g.Heights(Elements(g.Fresh(b))))
  {
    var news := g.View(b) - g.View(g.SelectedParent(b));
    SortedAscends(news, g.Heights(news));
  }

  lemma OrderStep(g: Graph, b: Hash)
    requires g.Valid() && g.Child(b)
    ensures g.Order(b) == g.Order(g.SelectedParent(b)) + g.Fresh(b)
  {
  }

  ghost predicate EndsWith(s: seq<Hash>, b: Hash) {
    |s| > 0 && s[|s| - 1] == b
  }

  /** The block itself closes its fresh set: every other member is an ancestor, hence lower. */
  lemma FreshLast(g: Graph, b: Hash)
    requires g.Valid() && b in g.headers
    ensures EndsWith(g.Fresh(b), b)
  {
    if b == g.genesis {
      GenesisFresh(g);
    } else {
      FreshBelow(g, b);
      HeightsBelow(g, g.Fresh(b), b);
      HighestIsLast(g.Fresh(b), g.Heights(Elements(g.Fresh(b))), b);
    }
  }

  lemma GenesisFresh(g: Graph)
    requires g.Valid()
    ensures g.Fresh(g.genesis) == [g.genesis]
  {
  }

  lemma HeightsBelow(g: Graph, r: seq<Hash>, b: Hash)
    requires g.Held(r) && b in r
    requires forall x | x in r && x != b :: g.Height(x) < g.Height(b)
    ensures Elements(r) <= g.headers.Keys && b in g.Heights(Elements(r))
    ensures forall x | x in r && x != b ::
              x in g.Heights(Elements(r)) && g.Heights(Elements(r))[x] < g.Heights(Elements(r))[b]
  {
  }

  lemma FreshBelow(g: Graph, b: Hash)
    requires g.Valid() && g.Child(b)
    ensures b in g.Fresh(b)
    ensures forall x | x in g.Fresh(b) && x != b :: x in g.Past(b) && g.Height(x) < g.Height(b)
    ensures Ascending(g.Fresh(b), g.Heights(Elements(g.Fresh(b))))
  {
    var sp := g.SelectedParent(b);
    assert b in g.View(b) - g.View(sp);
    FreshElements(g, b);
    assert forall x :: x in g.Fresh(b) <==> x in Elements(g.Fresh(b));
  }

  lemma HighestIsLast(r: seq<Hash>, rank: map<Hash, int>, b: Hash)
    requires Ascending(r, rank) && b in r
    requires forall x | x in r && x != b :: rank[x] < rank[b]
    ensures EndsWith(r, b)
  {
    var i :| 0 <= i < |r| && r[i] == b;
    var last := r[|r| - 1];
    assert i == |r| - 1 || Before(b, last, rank);
  }

  lemma ListingGrows(s: seq<Hash>, t: seq<Hash>, before: set<Hash>, after: set<Hash>)
    requires Distinct(s) && Elements(s) == before
    requires Distinct(t) && Elements(t) == after - before && before <= after
    ensures Distinct(s + t) && Elements(s + t) == after && |s + t| == |after|
  {
    forall i, j | 0 <= i < j < |s + t| ensures (s + t)[i] != (s + t)[j] {
      if i < |s| <= j {
        assert s[i] in Elements(s) && t[j - |s|] in Elements(t);
      }
    }
    ElementsAppend(s, t);
    DistinctCount(s + t);
  }

  /** The order lists exactly the view, each block once. */
  lemma {:induction false} OrderListsView(g: Graph, b: Hash)
    requires g.Valid() && b in g.headers
    ensures Elements(g.Order(b)) == g.View(b)
    ensures Distinct(g.Order(b))
    ensures |g.Order(b)| == |g.View(b)|
    decreases g.Height(b)
  {
    if b != g.genesis {
      var sp := g.SelectedParent(b);
      OrderListsView(g, sp);
      OrderStep(g, b);
      ListingGrows(g.Order(sp), g.Fresh(b), g.View(sp), g.View(b)) by {
        FreshElements(g, b);
        SelectedView(g, b);
      }
    }
  }

  /** The tip closes its own order. */
  lemma TipIsLast(g: Graph, b: Hash)
    requires g.Valid() && b in g.headers
    ensures |g.Order(b)| > 0 && g.Order(b)[|g.Order(b)| - 1] == b
  {
    FreshLast(g, b);
    if b != g.genesis {
      OrderStep(g, b);
      LastOfConcat(g.Order(g.SelectedParent(b)), g.Fresh(b));
    }
  }

  lemma LastOfConcat(s: seq<Hash>, t: seq<Hash>)
    requires |t| > 0
    ensures (s + t)[|s + t| - 1] == t[|t| - 1]
  {
  }

  /** Along the selected-parent chain the order only grows. */
  lemma {:induction false} OrderIsAppendOnly(g: Graph, a: Hash, b: Hash)
    requires g.Valid() && b in g.headers && g.OnChain(a, b)
    ensures a in g.View(b) && g.Order(a) <= g.Order(b)
    decreases g.Height(b)
  {
    if a != b {
      OrderIsAppendOnly(g, a, g.SelectedParent(b));
      SelectedView(g, b);
    }
  }

  lemma {:induction false} GenesisOnChain(g: Graph, b: Hash)
    requires g.Valid() && b in g.headers
    ensures g.OnChain(g.genesis, b)
    decreases g.Height(b)
  {
    if b != g.genesis {
      GenesisOnChain(g, g.SelectedParent(b));
    }
  }

  lemma GenesisIsFirst(g: Graph, b: Hash)
    requires g.Valid() && b in g.headers
    ensures |g.Order(b)| > 0 && g.Order(b)[0] == g.genesis
  {
    GenesisOnChain(g, b);
    OrderIsAppendOnly(g, g.genesis, b);
    assert g.Order(g.genesis) == [g.genesis];
  }

  /** Within a fresh set, ancestors come first. */
  lemma FreshIsTopological(g: Graph, b: Hash, k: nat)
    requires g.Valid() && g.Child(b) && k < |g.Fresh(b)|
    ensures g.Past(g.Fresh(b)[k]) <= g.View(g.SelectedParent(b)) + Elements(g.Fresh(b)[..k])
  {
    var r := g.Fresh(b);
    var y := r[k];
    var heights := g.Heights(Elements(r));
    FreshElements(g, b);
    assert y in Elements(r);
    assert g.Past(y) <= g.View(b) by {
      if y != b {
        PastTransitive(g, b, y);
      }
    }
    forall x | x in g.Past(y) && x !in g.View(g.SelectedParent(b)) ensures x in r[..k] {
      assert x in Elements(r);
      LowerStandsEarlier(r, heights, k, x);
    }
  }

  /** Every ancestor of a listed block is listed before it. */
  lemma {:induction false} OrderIsTopological(g: Graph, b: Hash, i: nat)
    requires g.Valid() && b in g.headers && i < |g.Order(b)|
    ensures g.Past(g.Order(b)[i]) <= Elements(g.Order(b)[..i])
    decreases g.Height(b)
  {
    if b == g.genesis {
      assert g.Order(b) == [b];
    } else {
      OrderStep(g, b);
      var sp := g.SelectedParent(b);
      var base := g.Order(sp);
      if i < |base| {
        OrderIsTopological(g, sp, i);
        SamePrefix(base, g.Fresh(b), i);
      } else {
        var k := i - |base|;
        SuffixIndex(base, g.Fresh(b), k);
        FreshIsTopological(g, b, k);
        OrderListsView(g, sp);
        ElementsPrefix(base, g.Fresh(b), k);
      }
    }
  }

  lemma SuffixIndex(s: seq<Hash>, t: seq<Hash>, k: nat)
    requires k < |t|
    ensures (s + t)[|s| + k] == t[k]
  {
  }

  lemma SamePrefix(s: seq<Hash>, t: seq<Hash>, i: nat)
    requires i < |s|
    ensures (s + t)[..i] == s[..i] && (s + t)[i] == s[i]
  {
  }

  /** Every block of a view was fresh at one block of the chain. */
  lemma {:induction false} FreshSomewhere(g: Graph, b: Hash, f: Hash) returns (c: Hash)
    requires g.Valid() && b in g.headers && f in g.View(b)
    ensures c in g.headers && g.OnChain(c, b) && f in g.Fresh(c)
    decreases g.Height(b)
  {
    if b == g.genesis {
      c := b;
    } else if f in g.View(g.SelectedParent(b)) {
      c := FreshSomewhere(g, g.SelectedParent(b), f);
    } else {
      c := b;
      assert f in g.Fresh(b) by {
        FreshElements(g, b);
        assert f in Elements(g.Fresh(b));
      }
    }
  }

  lemma OrderLength(g: Graph, f: Hash)
    requires g.Valid() && f in g.headers
    ensures |g.Order(f)| == |g.Past(f)| + 1
  {
    hide *;
    OrderListsView(g, f);
    ViewSize(g, f);
  }

  lemma ViewSize(g: Graph, f: Hash)
    requires g.Valid() && f in g.headers
    ensures |g.View(f)| == |g.Past(f)| + 1
  {
    hide Graph.Past, Graph.Order, Graph.Valid;
    assert g.View(f) == g.Past(f) + {f} && f !in g.Past(f);
  }

  /** Position |Past(f)| holds `f` only when exactly the past of `f` stands before it. */
  lemma PrefixIsPast(g: Graph, b: Hash, f: Hash)
    requires g.Valid() && b in g.headers && f in g.headers
    requires 0 < |g.Order(f)| <= |g.Order(b)| && g.Order(b)[|g.Order(f)| - 1] == f
    ensures Elements(g.Order(b)[..|g.Order(f)| - 1]) == g.Past(f)
  {
    hide *;
    var n := |g.Order(f)| - 1;
    OrderLength(g, f);
    assert Distinct(g.Order(b)) by { OrderListsView(g, b); }
    OrderIsTopological(g, b, n);
    CoverPins(g.Order(b), n, g.Past(f));
  }

  lemma SelectedOrderIsPrefix(g: Graph, b: Hash, c: Hash)
    requires g.Valid() && b in g.headers && g.Child(c) && g.OnChain(c, b)
    ensures g.Order(g.SelectedParent(c)) <= g.Order(b)
  {
    OrderStep(g, c);
    OrderIsAppendOnly(g, c, b);
  }

  /** Everything the selected parent of a merge sees is listed before what the merge adds. */
  lemma SelectedListedBeforeMerged(g: Graph, b: Hash, c: Hash, n: nat)
    requires g.Valid() && b in g.headers && g.Child(c) && g.OnChain(c, b)
    requires n < |g.Order(b)| && g.Order(b)[n] !in g.View(g.SelectedParent(c))
    ensures g.SelectedParent(c) in Elements(g.Order(b)[..n])
  {
    var sp := g.SelectedParent(c);
    SelectedOrderIsPrefix(g, b, c);
    OrderListsView(g, sp);
    TipIsLast(g, sp);
    LastOfPrefix(g.Order(sp), g.Order(b), n);
  }

  lemma LastOfPrefix(s: seq<Hash>, t: seq<Hash>, n: nat)
    requires |s| > 0 && s <= t && n < |t| && t[n] !in Elements(s)
    ensures s[|s| - 1] in Elements(t[..n])
  {
    assert forall i | 0 <= i < |s| :: t[i] == s[i] && s[i] in Elements(s);
    assert t[..n][|s| - 1] == s[|s| - 1];
  }

  /** A merged block never outscores the selected parent of the merge. */
  lemma MergedNeverOutscores(g: Graph, c: Hash, f: Hash)
    requires g.Valid() && g.Child(c) && f in g.Past(c)
    ensures g.Score(f) <= g.Score(g.SelectedParent(c))
  {
    var p := AncestorThroughParent(g, g.headers[c].parents, f);
    ScoreOverParents(g, c, p);
    if p != f {
      ScoreGrows(g, p, f);
    }
  }

  /**
   The one-lookup test is exact: with `n` blocks in the order of `f`, position `n - 1` of the order of
   `b` holds `f` precisely when `f` is on the selected-parent chain of `b`. A merged block could sit
   there only if the selected parent of its merge were its ancestor, and scores forbid that.
   */
  lemma LookupIsExact(g: Graph, b: Hash, f: Hash)
    requires g.Valid() && b in g.headers && f in g.headers
    ensures |g.Order(f)| > 0
    ensures g.OnChain(f, b) <==>
            |g.Order(f)| <= |g.Order(b)| && g.Order(b)[|g.Order(f)| - 1] == f
  {
    TipIsLast(g, f);
    if g.OnChain(f, b) {
      OrderIsAppendOnly(g, f, b);
    } else if |g.Order(f)| <= |g.Order(b)| && g.Order(b)[|g.Order(f)| - 1] == f {
      LookupHitIsChained(g, b, f);
    }
  }

  lemma LookupHitIsChained(g: Graph, b: Hash, f: Hash)
    requires g.Valid() && b in g.headers && f in g.headers
    requires 0 < |g.Order(f)| <= |g.Order(b)| && g.Order(b)[|g.Order(f)| - 1] == f
    ensures g.OnChain(f, b)
  {
    var n := |g.Order(f)| - 1;
    assert f in g.View(b) by {
      OrderListsView(g, b);
      assert g.Order(b)[n] in Elements(g.Order(b));
    }
    var c := FreshSomewhere(g, b, f);
    if f != c {
      FreshElements(g, c);
      assert f in Elements(g.Fresh(c));
      MergedNeverOutscores(g, c, f);
      SelectedListedBeforeMerged(g, b, c, n);
      PrefixIsPast(g, b, f);
      ScoreGrows(g, f, g.SelectedParent(c));
    }
  }
}
