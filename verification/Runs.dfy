/**
 Whole runs of the ordering layer: the derived state does not depend on the order of insertion, and the
 store answers like the reference for as long as no merge lands beyond the window.
 */
module Runs {
  import opened Wrappers
  import opened Ranking
  import opened Blocks
  import opened Graphs
  import opened Ancestry
  import opened Growth
  import Dags
  import Ordering
  import Stores

  /** One insertion call. */
  datatype Call = Call(block: Block, policy: Policy, nowMs: nat)

  ghost predicate WellFormed(calls: seq<Call>) {
    forall c | c in calls :: |c.block.header.parents| > 0
  }

  /** The graph a reference DAG holds after a run of calls, accepted or refused. */
  ghost function Final(g: Graph, digests: Digests, calls: seq<Call>): Graph
    decreases |calls|
  {
    if |calls| == 0 then g else
      var last := calls[|calls| - 1];
      After(Final(g, digests, calls[..|calls| - 1]), digests, last.block, last.policy, last.nowMs)
  }

  /** Whether every call of a run is accepted. */
  ghost predicate AllAccepted(g: Graph, digests: Digests, calls: seq<Call>)
    decreases |calls|
  {
    |calls| > 0 ==>
      var n := |calls| - 1;
      && AllAccepted(g, digests, calls[..n])
      && Outcome(Final(g, digests, calls[..n]), digests, calls[n].block, calls[n].policy, calls[n].nowMs).Success?
  }

  ghost function BlocksOf(calls: seq<Call>): set<Block> {
    set c | c in calls :: c.block
  }

  lemma {:induction false} FinalIsValid(g: Graph, digests: Digests, calls: seq<Call>)
    requires g.Valid() && WellFormed(calls)
    ensures Final(g, digests, calls).Valid() && Extends(g, Final(g, digests, calls))
    decreases |calls|
  {
    if |calls| > 0 {
      var n := |calls| - 1;
      FinalIsValid(g, digests, calls[..n]);
      var before := Final(g, digests, calls[..n]);
      if Outcome(before, digests, calls[n].block, calls[n].policy, calls[n].nowMs).Success? {
        GrownIsValid(before, calls[n].block.id, calls[n].block.header);
      }
    }
  }

  /** After an accepted run the graph holds the initial headers and those of the blocks, nothing else. */
  lemma {:induction false} FinalHeaders(g: Graph, digests: Digests, calls: seq<Call>, id: Hash)
    requires AllAccepted(g, digests, calls)
    ensures id in Final(g, digests, calls).headers <==> id in g.headers || exists b | b in BlocksOf(calls) :: b.id == id
    ensures id in g.headers ==>
              id in Final(g, digests, calls).headers && Final(g, digests, calls).headers[id] == g.headers[id]
    ensures forall b | b in BlocksOf(calls) && b.id == id ::
              id in Final(g, digests, calls).headers && Final(g, digests, calls).headers[id] == b.header
    decreases |calls|
  {
    hide Outcome;
    if |calls| > 0 {
      var n := |calls| - 1;
      FinalHeaders(g, digests, calls[..n], id);
      assert calls == calls[..n] + [calls[n]];
      assert BlocksOf(calls) == BlocksOf(calls[..n]) + {calls[n].block};
      assert calls[n].block in BlocksOf(calls);
      AcceptedIsNew(Final(g, digests, calls[..n]), digests, calls[n]);
    }
  }

  lemma AcceptedIsNew(g: Graph, digests: Digests, c: Call)
    requires Outcome(g, digests, c.block, c.policy, c.nowMs).Success?
    ensures c.block.id !in g.headers
    ensures After(g, digests, c.block, c.policy, c.nowMs) == Grown(g, c.block.id, c.block.header)
  {
  }

  /** Two accepted runs over the same blocks end in the same graph, whatever their order. */
  lemma SameBlocksSameGraph(g: Graph, digests: Digests, calls: seq<Call>, calls': seq<Call>)
    requires AllAccepted(g, digests, calls) && AllAccepted(g, digests, calls')
    requires BlocksOf(calls) == BlocksOf(calls')
    ensures Final(g, digests, calls) == Final(g, digests, calls')
  {
    var a, b := Final(g, digests, calls), Final(g, digests, calls');
    forall id ensures (id in a.headers <==> id in b.headers) && (id in a.headers ==> a.headers[id] == b.headers[id]) {
      FinalHeaders(g, digests, calls, id);
      FinalHeaders(g, digests, calls', id);
    }
    SameGenesis(g, digests, calls);
    SameGenesis(g, digests, calls');
    assert a.headers == b.headers;
  }

  lemma {:induction false} SameGenesis(g: Graph, digests: Digests, calls: seq<Call>)
    ensures Final(g, digests, calls).genesis == g.genesis
    decreases |calls|
  {
    if |calls| > 0 {
      SameGenesis(g, digests, calls[..|calls| - 1]);
    }
  }

  /** A DAG state is a function of its accepted blocks: pasts, blues, scores, selected parents, children, tips. */
  lemma SameBlocksSameState(a: Dags.Dag, b: Dags.Dag)
    requires a.Valid() && b.Valid() && a.View() == b.View()
    ensures a.nodes == b.nodes && a.tips == b.tips
  {
    Dags.SoundView(a);
    Dags.SoundView(b);
    forall x | x in a.nodes ensures a.nodes[x] == b.nodes[x] {
      assert a.nodes[x] == Dags.Derived(a.View(), x) == b.nodes[x];
    }
  }

  // ----- acceptance does not depend on the order either

  /** The rules read the parents' headers and the absence of the id, nothing else of the graph. */
  lemma RulesReadParents(one: map<Hash, Header>, two: map<Hash, Header>, digests: Digests, c: Call)
    requires Refusal(one, digests, c.block, c.policy, c.nowMs).None?
    requires c.block.id !in two
    requires forall p | p in c.block.header.parents :: p in one && p in two && one[p] == two[p]
    ensures Refusal(two, digests, c.block, c.policy, c.nowMs).None?
  {
    SameParents(one, two, c.block.header.parents);
  }

  lemma {:induction false} SameParents(one: map<Hash, Header>, two: map<Hash, Header>, parents: seq<Hash>)
    requires forall p | p in parents :: p in one && p in two && one[p] == two[p]
    ensures HeightOver(one, parents) == HeightOver(two, parents)
    ensures TimestampOver(one, parents) == TimestampOver(two, parents)
    decreases |parents|
  {
    if |parents| > 0 {
      SameParents(one, two, parents[..|parents| - 1]);
    }
  }

  /** Each call names a block of its own, after every parent that is not held from the start. */
  ghost predicate Topological(g: Graph, calls: seq<Call>)
    decreases |calls|
  {
    |calls| > 0 ==>
      var n := |calls| - 1;
      var block := calls[n].block;
      && Topological(g, calls[..n])
      && block.id !in g.headers && (forall b | b in BlocksOf(calls[..n]) :: b.id != block.id)
      && forall p | p in block.header.parents :: p in g.headers || exists b | b in BlocksOf(calls[..n]) :: b.id == p
  }

  /** An accepted run accepted each of its calls on the parents' headers the final graph holds. */
  lemma {:induction false} AcceptedOnFinal(g: Graph, digests: Digests, calls: seq<Call>, c: Call)
    requires g.Valid() && WellFormed(calls) && AllAccepted(g, digests, calls) && c in calls
    ensures exists one: map<Hash, Header> {:trigger Refusal(one, digests, c.block, c.policy, c.nowMs)} ::
              && Refusal(one, digests, c.block, c.policy, c.nowMs).None?
              && forall x | x in one ::
                   x in Final(g, digests, calls).headers && Final(g, digests, calls).headers[x] == one[x]
    decreases |calls|
  {
    hide Refusal, Graph.Valid;
    var n := |calls| - 1;
    var before := Final(g, digests, calls[..n]);
    if c == calls[n] {
      assert Refusal(before.headers, digests, c.block, c.policy, c.nowMs).None?;
      AcceptedIsNew(before, digests, c);
    } else {
      assert calls == calls[..n] + [calls[n]];
      AcceptedOnFinal(g, digests, calls[..n], c);
      AcceptedIsNew(before, digests, calls[n]);
    }
  }

  /**
   Order independence of acceptance: any reordering of an accepted run that names each block once, after
   its parents, is accepted throughout.
   */
  lemma {:induction false} ReorderedRunIsAccepted(g: Graph, digests: Digests, calls: seq<Call>, calls': seq<Call>)
    requires g.Valid() && WellFormed(calls) && AllAccepted(g, digests, calls)
    requires (forall c | c in calls' :: c in calls) && Topological(g, calls')
    ensures AllAccepted(g, digests, calls')
    decreases |calls'|
  {
    hide Outcome, After, Graph.Valid;
    if |calls'| > 0 {
      var n := |calls'| - 1;
      ReorderedRunIsAccepted(g, digests, calls, calls'[..n]);
      NextIsAccepted(g, digests, calls, calls'[..n], calls'[n]);
    }
  }

  lemma NextIsAccepted(g: Graph, digests: Digests, calls: seq<Call>, prefix: seq<Call>, c: Call)
    requires g.Valid() && WellFormed(calls) && AllAccepted(g, digests, calls) && AllAccepted(g, digests, prefix)
    requires c in calls && (forall d | d in prefix :: d in calls)
    requires c.block.id !in g.headers && (forall b | b in BlocksOf(prefix) :: b.id != c.block.id)
    requires forall p | p in c.block.header.parents :: p in g.headers || exists b | b in BlocksOf(prefix) :: b.id == p
    ensures Outcome(Final(g, digests, prefix), digests, c.block, c.policy, c.nowMs).Success?
  {
    AcceptedOnFinal(g, digests, calls, c);
    var one: map<Hash, Header> :| Refusal(one, digests, c.block, c.policy, c.nowMs).None? &&
      forall x | x in one :: x in Final(g, digests, calls).headers && Final(g, digests, calls).headers[x] == one[x];
    var two := Final(g, digests, prefix).headers;
    FinalHeaders(g, digests, prefix, c.block.id);
    forall p | p in c.block.header.parents ensures p in one && p in two && one[p] == two[p] {
      FinalHeaders(g, digests, prefix, p);
      FinalHeaders(g, digests, calls, p);
      if p !in g.headers {
        var b :| b in BlocksOf(prefix) && b.id == p;
        assert b in BlocksOf(calls);
      }
    }
    RulesReadParents(one, two, digests, c);
  }

  // ----- the store against the reference

  ghost function StoreFinal(g: Graph, digests: Digests, calls: seq<Call>): Graph
    decreases |calls|
  {
    if |calls| == 0 then g else
      var last := calls[|calls| - 1];
      Stores.StoreAfter(StoreFinal(g, digests, calls[..|calls| - 1]), digests, last.block, last.policy, last.nowMs)
  }

  /** The store's verdict, were it the reference's. */
  function Lifted(r: Result<Hash, DagError>): Result<Hash, Stores.NodeError> {
    match r
    case Success(id) => Success(id)
    case Failure(e) => Failure(Stores.Rule(e))
  }

  /** Every call of a run gets the reference's verdict from the store. */
  ghost predicate SameVerdicts(g: Graph, digests: Digests, calls: seq<Call>)
    decreases |calls|
  {
    |calls| > 0 ==>
      var n := |calls| - 1;
      var c := calls[n];
      && SameVerdicts(g, digests, calls[..n])
      && Stores.StoreOutcome(StoreFinal(g, digests, calls[..n]), digests, c.block, c.policy, c.nowMs) ==
         Lifted(Outcome(Final(g, digests, calls[..n]), digests, c.block, c.policy, c.nowMs))
  }

  /** Every merge the rules accept arrives while the block count is inside the window. */
  ghost predicate MergesInWindow(g: Graph, digests: Digests, calls: seq<Call>)
    decreases |calls|
  {
    |calls| > 0 ==>
      var n := |calls| - 1;
      var c := calls[n];
      var before := Final(g, digests, calls[..n]);
      && MergesInWindow(g, digests, calls[..n])
      && (|c.block.header.parents| != 1 && Outcome(before, digests, c.block, c.policy, c.nowMs).Success?
          ==> |before.headers| < Stores.REFERENCE_WINDOW)
  }

  /**
   The store refines the reference: over a whole run it accepts the same blocks with the same errors and
   ends on the same graph exactly when no merge the rules accept lands beyond the window.
   */
  lemma {:induction false} StoreRefinesReference(g: Graph, digests: Digests, calls: seq<Call>)
    ensures SameVerdicts(g, digests, calls) <==> MergesInWindow(g, digests, calls)
    ensures MergesInWindow(g, digests, calls) ==> StoreFinal(g, digests, calls) == Final(g, digests, calls)
    decreases |calls|
  {
    if |calls| > 0 {
      StoreRefinesReference(g, digests, calls[..|calls| - 1]);
    }
  }

  /** A store and a reference on the same graph agree on every answer they give. */
  lemma StoreAndReferenceAgree(store: Stores.Store, dag: Dags.Dag)
    requires store.Valid() && dag.Valid() && store.View() == dag.View()
    ensures store.tips == dag.tips && store.nodes.Keys == dag.nodes.Keys
    ensures forall b | b in dag.nodes ::
              && store.nodes[b].blueScore == dag.nodes[b].blueScore
              && store.nodes[b].selectedParent == dag.nodes[b].selectedParent
              && store.nodes[b].children == dag.nodes[b].children
              && store.nodes[b].orderLen == |dag.nodes[b].past| + 1
    ensures store.orderTip == BestTip(dag.View()) && store.order == dag.View().Order(store.orderTip)
  {
    hide *;
    Dags.SoundView(dag);
    Stores.Parts(store);
    Stores.SoundParts(store.View(), store.nodes, store.tips);
    Dags.ExactParts(dag.View(), dag.nodes, dag.tips);
    forall b | b in dag.nodes
      ensures store.nodes[b].blueScore == dag.nodes[b].blueScore
      ensures store.nodes[b].selectedParent == dag.nodes[b].selectedParent
      ensures store.nodes[b].children == dag.nodes[b].children
      ensures store.nodes[b].orderLen == |dag.nodes[b].past| + 1
    {
      Dags.NodeParts(dag.View(), dag.nodes, dag.tips, b);
      Stores.KeptParts(store.View(), store.nodes, store.tips, b);
      Ordering.OrderLength(dag.View(), b);
    }
  }

  /** One call to both: the verdicts agree and so do the graphs, unless an accepted merge meets a closed window. */
  method CallBoth(store: Stores.Store, dag: Dags.Dag, digests: Digests, c: Call)
    returns (s: Result<Hash, Stores.NodeError>, d: Result<Hash, DagError>)
    requires store.Valid() && dag.Valid() && store.View() == dag.View() && store.reference != dag
    requires |c.block.header.parents| > 0 && MergesInWindow(dag.View(), digests, [c])
    modifies store, store.reference, dag
    ensures store.Valid() && dag.Valid()
    ensures store.View() == dag.View() == After(old(dag.View()), digests, c.block, c.policy, c.nowMs)
    ensures store.reference == old(store.reference) || store.reference == null
    ensures s == Lifted(d)
  {
    hide *;
    SoloCall(dag.View(), digests, c);
    s := store.Insert(digests, c.block, c.policy, c.nowMs);
    d := dag.Insert(digests, c.block, c.policy, c.nowMs);
  }

  lemma SoloCall(g: Graph, digests: Digests, c: Call)
    requires MergesInWindow(g, digests, [c])
    ensures Stores.StoreOutcome(g, digests, c.block, c.policy, c.nowMs) ==
            Lifted(Outcome(g, digests, c.block, c.policy, c.nowMs))
    ensures Stores.StoreAfter(g, digests, c.block, c.policy, c.nowMs) == After(g, digests, c.block, c.policy, c.nowMs)
  {
    assert [c][..0] == [];
  }

  /** The differential run: every call goes to both, and the two never part while merges stay inside the window. */
  method RunBoth(store: Stores.Store, dag: Dags.Dag, digests: Digests, calls: seq<Call>)
    returns (storeVerdicts: seq<Result<Hash, Stores.NodeError>>, verdicts: seq<Result<Hash, DagError>>)
    requires store.Valid() && dag.Valid() && store.View() == dag.View() && store.reference != dag
    requires WellFormed(calls) && MergesInWindow(dag.View(), digests, calls)
    modifies store, store.reference, dag
    ensures store.Valid() && dag.Valid() && store.View() == dag.View() == Final(old(dag.View()), digests, calls)
    ensures |storeVerdicts| == |verdicts| == |calls|
    ensures forall i | 0 <= i < |calls| :: storeVerdicts[i] == Lifted(verdicts[i])
  {
    hide *;
    storeVerdicts, verdicts := [], [];
    ghost var g := dag.View();
    RunStart(g, digests, calls);
    for i := 0 to |calls|
      invariant store.Valid() && dag.Valid()
      invariant store.reference == old(store.reference) || store.reference == null
      invariant store.View() == dag.View() == Final(g, digests, calls[..i])
      invariant |storeVerdicts| == |verdicts| == i
      invariant forall j | 0 <= j < i :: storeVerdicts[j] == Lifted(verdicts[j])
    {
      RunStep(g, digests, calls, i);
      var s, d := CallBoth(store, dag, digests, calls[i]);
      storeVerdicts, verdicts := storeVerdicts + [s], verdicts + [d];
    }
  }

  lemma RunStart(g: Graph, digests: Digests, calls: seq<Call>)
    ensures Final(g, digests, calls[..0]) == g && calls[..|calls|] == calls
  {
  }

  /** What the run up to a call says about the call itself. */
  lemma RunStep(g: Graph, digests: Digests, calls: seq<Call>, i: nat)
    requires i < |calls| && WellFormed(calls) && MergesInWindow(g, digests, calls)
    ensures var before := Final(g, digests, calls[..i]);
            && |calls[i].block.header.parents| > 0
            && MergesInWindow(before, digests, [calls[i]])
            && Final(g, digests, calls[..i + 1]) ==
               After(before, digests, calls[i].block, calls[i].policy, calls[i].nowMs)
  {
    WindowPrefix(g, digests, calls, i + 1);
    assert calls[..i + 1][..i] == calls[..i];
    assert [calls[i]][..0] == [];
  }

  lemma {:induction false} WindowPrefix(g: Graph, digests: Digests, calls: seq<Call>, n: nat)
    requires n <= |calls| && MergesInWindow(g, digests, calls)
    ensures MergesInWindow(g, digests, calls[..n])
    decreases |calls|
  {
    if n < |calls| {
      WindowPrefix(g, digests, calls[..|calls| - 1], n);
      assert calls[..|calls| - 1][..n] == calls[..n];
    } else {
      assert calls[..n] == calls;
    }
  }
}
