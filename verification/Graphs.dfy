/**
 The derived state of a block graph as a function of the accepted headers alone: transitive pasts,
 selected parents, greedy blue sets, blue scores, views, fresh sets and the recursive consensus order.
 `Dag` and `Store` are both proved against these functions.

 Functions named `...Over` take a parent list and describe the block that would carry it, held or not.
 */
module Graphs {
  import opened Ranking
  import opened Blocks

  /** The anticone bound of the coloring. */
  const K: nat := 8

  /** The rank that puts the highest score first. */
  ghost function Descending(ids: set<Hash>, score: map<Hash, nat>): (r: map<Hash, int>)
    requires ids <= score.Keys
    ensures r.Keys == ids
    ensures forall x | x in ids :: r[x] == 0 - score[x] as int
    decreases |ids|
  {
    if ids == {} then map[] else
      var x :| x in ids;
      Descending(ids - {x}, score)[x := 0 - score[x] as int]
  }

  /** The first of `ids` by descending score, ties by the smallest id. */
  ghost function Leader(ids: set<Hash>, score: map<Hash, nat>): (m: Hash)
    requires ids != {} && ids <= score.Keys
    ensures m in ids
    ensures forall x | x in ids :: score[x] <= score[m]
    ensures forall x | x in ids && score[x] == score[m] :: m <= x
  {
    First(ids, Descending(ids, score))
  }

  datatype Graph = Graph(genesis: Hash, headers: map<Hash, Header>) {

    ghost predicate Valid() {
      && genesis in headers
      && headers[genesis].height == 0
      && (forall b | b in headers && b != genesis :: |headers[b].parents| > 0)
      && (forall b, p {:trigger p in headers[b].parents} | b in headers && b != genesis && p in headers[b].parents ::
            p in headers && headers[p].height < headers[b].height)
    }

    ghost function Height(b: Hash): nat
      requires b in headers
    {
      headers[b].height
    }

    /** Whether every id of a parent list is held. */
    ghost predicate Held(parents: seq<Hash>) {
      forall p | p in parents :: p in headers
    }

    ghost predicate Child(b: Hash) {
      b in headers && b != genesis
    }

    /** The transitive ancestors a parent list brings. */
    ghost function PastOver(parents: seq<Hash>): (r: set<Hash>)
      requires Valid() && Held(parents)
      ensures forall x | x in r :: x in headers && Height(x) < HeightOver(headers, parents)
      decreases HeightOver(headers, parents), 0, |parents|
    {
      if |parents| == 0 then {} else
        var n := |parents| - 1;
        PastOver(parents[..n]) + Past(parents[n]) + {parents[n]}
    }

    /** The transitive ancestors of a block, the block excluded. */
    ghost function Past(b: Hash): (r: set<Hash>)
      requires Valid() && b in headers
      ensures forall x | x in r :: x in headers && Height(x) < Height(b)
      decreases Height(b), 1
    {
      if b == genesis then {} else PastOver(headers[b].parents)
    }

    /** A block and its ancestors. */
    ghost function View(b: Hash): set<Hash>
      requires Valid() && b in headers
    {
      Past(b) + {b}
    }

    /** The blocks of `among` neither in the past nor in the future of `v`, `v` excluded. */
    ghost function Anticone(v: Hash, among: set<Hash>): (r: set<Hash>)
      requires Valid() && v in headers && among <= headers.Keys
      ensures r <= among
    {
      set u | u in among && u != v && u !in Past(v) && v !in Past(u)
    }

    /** The coloring loop: each candidate in turn joins when its anticone in the working set is small. */
    ghost function Greedy(candidates: seq<Hash>, working: set<Hash>): (r: set<Hash>)
      requires Valid() && working <= headers.Keys && Held(candidates)
      ensures working <= r <= working + Elements(candidates)
      decreases |candidates|
    {
      if candidates == [] then working else
        var n := |candidates| - 1;
        assert candidates == candidates[..n] + [candidates[n]];
        var before := Greedy(candidates[..n], working);
        if |Anticone(candidates[n], before)| <= K then before + {candidates[n]} else before
    }

    lemma LastParent(parents: seq<Hash>)
      requires Valid() && Held(parents) && |parents| > 0
      ensures var n := |parents| - 1; PastOver(parents) == PastOver(parents[..n]) + View(parents[n])
    {
    }

    lemma {:induction false} ParentView(parents: seq<Hash>, p: Hash)
      requires Valid() && Held(parents) && p in parents
      ensures View(p) <= PastOver(parents)
      decreases |parents|
    {
      hide Graph.PastOver, Graph.View, Graph.Valid;
      var n := |parents| - 1;
      LastParent(parents);
      if p != parents[n] {
        var i :| 0 <= i < n && parents[i] == p;
        assert p in parents[..n] by { assert parents[..n][i] == p; }
        ParentView(parents[..n], p);
      }
    }

    /** The blue scores of a set of blocks, all below a height. */
    ghost function Scores(ids: set<Hash>, bound: nat): (r: map<Hash, nat>)
      requires Valid() && forall x | x in ids :: x in headers && Height(x) < bound
      ensures r.Keys == ids
      ensures forall x | x in ids :: r[x] == Score(x)
      decreases bound, 0, |ids|
    {
      if ids == {} then map[] else
        var x :| x in ids;
        Scores(ids - {x}, bound)[x := Score(x)]
    }

    /** The parent of highest score, ties by the smallest id. */
    ghost function SelectedOver(parents: seq<Hash>): (sp: Hash)
      requires Valid() && Held(parents) && |parents| > 0
      ensures sp in parents
      decreases HeightOver(headers, parents), 1
    {
      assert parents[0] in Elements(parents);
      Leader(Elements(parents), Scores(Elements(parents), HeightOver(headers, parents)))
    }

    /** The candidates of a coloring, by score descending then id ascending. */
    ghost function QueueOver(parents: seq<Hash>): (r: seq<Hash>)
      requires Valid() && Held(parents) && |parents| > 0
      ensures Elements(r) == PastOver(parents) - View(SelectedOver(parents))
      ensures Held(r)
      decreases HeightOver(headers, parents), 2
    {
      var news := PastOver(parents) - View(SelectedOver(parents));
      Sorted(news, Descending(news, Scores(news, HeightOver(headers, parents))))
    }

    /** The blue set a parent list brings: the selected parent and its blues, then the coloring. */
    ghost function BluesOver(parents: seq<Hash>): (r: set<Hash>)
      requires Valid() && Held(parents) && |parents| > 0
      ensures r <= PastOver(parents)
      decreases HeightOver(headers, parents), 3
    {
      var sp := SelectedOver(parents);
      ParentView(parents, sp);
      assert Blues(sp) + {sp} <= View(sp);
      Greedy(QueueOver(parents), Blues(sp) + {sp})
    }

    /** The blue ancestors of a block, itself excluded. */
    ghost function Blues(b: Hash): (r: set<Hash>)
      requires Valid() && b in headers
      ensures r <= Past(b)
      decreases Height(b), 4
    {
      if b == genesis then {} else BluesOver(headers[b].parents)
    }

    /** One plus the size of the blue set. */
    ghost function Score(b: Hash): nat
      requires Valid() && b in headers
      decreases Height(b), 5
    {
      1 + |Blues(b)|
    }

    ghost function SelectedParent(b: Hash): (sp: Hash)
      requires Valid() && Child(b)
      ensures sp in headers[b].parents
      ensures sp in headers && Height(sp) < Height(b)
    {
      SelectedOver(headers[b].parents)
    }

    // ----- the consensus order

    ghost function Heights(ids: set<Hash>): (r: map<Hash, int>)
      requires ids <= headers.Keys
      ensures r.Keys == ids
      ensures forall x | x in ids :: r[x] == headers[x].height as int
      decreases |ids|
    {
      if ids == {} then map[] else
        var x :| x in ids;
        Heights(ids - {x})[x := headers[x].height as int]
    }

    /** What a block adds to the view of its selected parent, by height then id. */
    ghost function Fresh(b: Hash): (r: seq<Hash>)
      requires Valid() && b in headers
      ensures Held(r)
    {
      if b == genesis then [genesis] else
        var news := View(b) - View(SelectedParent(b));
        Sorted(news, Heights(news))
    }

    /** The consensus order of the view of a block. */
    ghost function Order(b: Hash): (r: seq<Hash>)
      requires Valid() && b in headers
      ensures Held(r)
      decreases Height(b)
    {
      if b == genesis then Fresh(b) else Order(SelectedParent(b)) + Fresh(b)
    }

    /** Whether `a` is on the selected-parent chain of `b`, `b` included. */
    ghost predicate OnChain(a: Hash, b: Hash)
      requires Valid() && b in headers
      decreases Height(b)
    {
      a == b || (b != genesis && OnChain(a, SelectedParent(b)))
    }

    // ----- children and tips

    ghost function Children(b: Hash): set<Hash>
    {
      set c | c in headers && c != genesis && b in headers[c].parents
    }

    /** Whether no held block names `b` as a parent. */
    ghost predicate Childless(b: Hash) {
      forall c {:trigger b in headers[c].parents} | c in headers && c != genesis :: b !in headers[c].parents
    }

    ghost function Tips(): set<Hash> {
      set b | b in headers && Childless(b)
    }
  }
}
