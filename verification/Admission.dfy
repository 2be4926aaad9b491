/**
 The rules of an insertion, read off the block and the held headers: when a block is accepted, what each refusal
 says, and what the rules leave behind in every graph a run can reach.
 */
module Admission {
  import opened Wrappers
  import opened Ranking
  import opened Blocks
  import opened Graphs
  import opened Ancestry
  import opened Growth
  import opened Runs
  import Stores

  /**
   A block is accepted exactly when it commits to its payload, its id is new, its parents are held and are not the
   zero hash alone, it stands one above the highest of them, none of them is younger, it is not too far in the future
   and its id carries the work.
   */
  lemma AcceptedExactly(headers: map<Hash, Header>, digests: Digests, block: Block, policy: Policy, nowMs: nat)
    requires block.header.parents != []
    ensures var h := block.header;
            Refusal(headers, digests, block, policy, nowMs).None? <==>
            && h.payloadRoot == digests.payloadRoot(block.txIds)
            && block.id !in headers
            && h.parents != [0]
            && (forall p | p in h.parents ::
                  p in headers && headers[p].height < h.height && headers[p].timestamp <= h.timestamp)
            && (exists p | p in h.parents :: p in headers && headers[p].height + 1 == h.height)
            && h.timestamp <= nowMs + policy.maxFutureMs && h.timestamp <= 0xFFFF_FFFF_FFFF_FFFF
            && digests.zeroBits(block.id) >= policy.difficultyBits
  {
    hide HeightOver, TimestampOver, FirstUnknown;
    var h := block.header;
    if h.parents != [0] && (forall p | p in h.parents :: p in headers) {
      HeightIsAbove(headers, h.parents, h.height);
      TimestampIsLatest(headers, h.parents, h.timestamp);
    }
  }

  lemma HeightIsAbove(headers: map<Hash, Header>, parents: seq<Hash>, height: nat)
    requires parents != [] && forall p | p in parents :: p in headers
    ensures height == HeightOver(headers, parents) <==>
            && (forall p | p in parents :: headers[p].height < height)
            && exists p | p in parents :: headers[p].height + 1 == height
  {
    var h := HeightOver(headers, parents);
    var p :| p in parents && h == headers[p].height + 1;
  }

  lemma TimestampIsLatest(headers: map<Hash, Header>, parents: seq<Hash>, timestamp: nat)
    requires parents != [] && forall p | p in parents :: p in headers
    ensures timestamp >= TimestampOver(headers, parents) <==>
            forall p | p in parents :: headers[p].timestamp <= timestamp
  {
    var t := TimestampOver(headers, parents);
    var p :| p in parents && t == headers[p].timestamp;
  }

  lemma {:induction false} UnknownIsFirst(headers: map<Hash, Header>, parents: seq<Hash>, i: nat)
    requires i < |parents| && parents[i] !in headers && forall j | 0 <= j < i :: parents[j] in headers
    ensures FirstUnknown(headers, parents) == Some(parents[i])
  {
    if i > 0 {
      UnknownIsFirst(headers, parents[1..], i - 1);
    }
  }

  /**
   A refusal names the first rule broken, with the values at odds. First come the payload, the id and the parents:
   the first unknown parent of the list is the one named.
   */
  lemma EarlyRefusals(headers: map<Hash, Header>, digests: Digests, block: Block, policy: Policy, nowMs: nat)
    ensures var h, r := block.header, Refusal(headers, digests, block, policy, nowMs);
            var root := digests.payloadRoot(block.txIds);
            if h.payloadRoot != root then r == Some(PayloadRootMismatch(h.payloadRoot, root))
            else if block.id in headers then r == Some(Duplicate(block.id))
            else if h.parents == [0] then r == Some(ZeroParent)
            else
              forall i | && 0 <= i < |h.parents| && h.parents[i] !in headers
                         && forall j | 0 <= j < i :: h.parents[j] in headers ::
                r == Some(UnknownParent(h.parents[i]))
  {
    var h := block.header;
    forall i | 0 <= i < |h.parents| && h.parents[i] !in headers && forall j | 0 <= j < i :: h.parents[j] in headers
      ensures FirstUnknown(headers, h.parents) == Some(h.parents[i])
    {
      UnknownIsFirst(headers, h.parents, i);
    }
  }

  /** Then the height, the timestamps and the work: the highest, or the latest, parent is what they are held against. */
  lemma LateRefusals(
    headers: map<Hash, Header>, digests: Digests, block: Block, policy: Policy, nowMs: nat, top: Hash, last: Hash)
    requires var h := block.header;
             && h.payloadRoot == digests.payloadRoot(block.txIds) && block.id !in headers && h.parents != [0]
             && (forall p | p in h.parents :: p in headers) && top in h.parents && last in h.parents
             && (forall p | p in h.parents :: headers[p].height <= headers[top].height)
             && (forall p | p in h.parents :: headers[p].timestamp <= headers[last].timestamp)
    ensures var h, r := block.header, Refusal(headers, digests, block, policy, nowMs);
            var sum := nowMs + policy.maxFutureMs;
            var limit := if sum < 0xFFFF_FFFF_FFFF_FFFF then sum else 0xFFFF_FFFF_FFFF_FFFF;
            if h.height != headers[top].height + 1 then r == Some(HeightMismatch(h.height, headers[top].height + 1))
            else if h.timestamp < headers[last].timestamp then
              r == Some(TimestampBehind(h.timestamp, headers[last].timestamp))
            else if h.timestamp > limit then r == Some(TimestampFuture(h.timestamp, limit))
            else if digests.zeroBits(block.id) < policy.difficultyBits then
              r == Some(InsufficientWork(digests.zeroBits(block.id), policy.difficultyBits))
            else r == None
  {
    hide HeightOver, TimestampOver, FirstUnknown;
    HighestAndLatest(headers, block.header.parents, top, last);
  }

  lemma HighestAndLatest(headers: map<Hash, Header>, parents: seq<Hash>, top: Hash, last: Hash)
    requires (forall p | p in parents :: p in headers) && top in parents && last in parents
    requires forall p | p in parents :: headers[p].height <= headers[top].height
    requires forall p | p in parents :: headers[p].timestamp <= headers[last].timestamp
    ensures HeightOver(headers, parents) == headers[top].height + 1
    ensures TimestampOver(headers, parents) == headers[last].timestamp
  {
    hide *;
    var h, t := HeightOver(headers, parents), TimestampOver(headers, parents);
    var p :| p in parents && h == headers[p].height + 1;
    var r :| r in parents && t == headers[r].timestamp;
  }

  /**
   Both graphs answer with the id of a block they accept. The store also refuses a merge once it holds 1024 blocks,
   and nothing else the reference accepts.
   */
  lemma VerdictsExactly(g: Graph, digests: Digests, block: Block, policy: Policy, nowMs: nat)
    requires block.header.parents != []
    ensures var h, n := block.header, |block.header.parents|;
            var refusal := Refusal(g.headers, digests, block, policy, nowMs);
            var late := n != 1 && |g.headers| >= 1024;
            && Outcome(g, digests, block, policy, nowMs) ==
               (if refusal.Some? then Failure(refusal.value) else Success(block.id))
            && Stores.StoreOutcome(g, digests, block, policy, nowMs) ==
               (if refusal.Some? then Failure(Stores.Rule(refusal.value))
                else if late then Failure(Stores.MergeBeyondWindow(n, 1024))
                else Success(block.id))
            && (Stores.StoreOutcome(g, digests, block, policy, nowMs).Success? <==>
                && h.payloadRoot == digests.payloadRoot(block.txIds)
                && block.id !in g.headers
                && h.parents != [0]
                && (forall p | p in h.parents ::
                      p in g.headers && g.headers[p].height < h.height && g.headers[p].timestamp <= h.timestamp)
                && (exists p | p in h.parents :: p in g.headers && g.headers[p].height + 1 == h.height)
                && h.timestamp <= nowMs + policy.maxFutureMs && h.timestamp <= 0xFFFF_FFFF_FFFF_FFFF
                && digests.zeroBits(block.id) >= policy.difficultyBits
                && !late)
  {
    hide Refusal;
    AcceptedExactly(g.headers, digests, block, policy, nowMs);
  }

  // ----- what the rules leave behind

  /** Every block but the genesis stands one above some parent, and is as young as each of them. */
  ghost predicate Lawful(g: Graph) {
    forall b | b in g.headers && b != g.genesis ::
      && (exists p | p in g.headers[b].parents :: p in g.headers && g.headers[p].height + 1 == g.headers[b].height)
      && forall p | p in g.headers[b].parents :: p in g.headers && g.headers[p].timestamp <= g.headers[b].timestamp
  }

  /** Whatever is sent, in whatever order and under whatever clocks, the graph a run reaches is lawful. */
  lemma {:induction false} RunsAreLawful(g: Graph, digests: Digests, calls: seq<Call>)
    requires g.Valid() && WellFormed(calls) && Lawful(g)
    ensures Final(g, digests, calls).Valid() && Lawful(Final(g, digests, calls))
    decreases |calls|
  {
    hide Refusal, Graph.Valid, Lawful;
    FinalIsValid(g, digests, calls);
    if calls != [] {
      var n := |calls| - 1;
      var c := calls[n];
      RunsAreLawful(g, digests, calls[..n]);
      StepIsLawful(Final(g, digests, calls[..n]), digests, c);
    }
  }

  lemma StepIsLawful(g: Graph, digests: Digests, c: Call)
    requires g.Valid() && Lawful(g) && c.block.header.parents != []
    ensures Lawful(After(g, digests, c.block, c.policy, c.nowMs))
  {
    hide Refusal, Graph.Valid;
    if Outcome(g, digests, c.block, c.policy, c.nowMs).Success? {
      AcceptedExactly(g.headers, digests, c.block, c.policy, c.nowMs);
      var h := Grown(g, c.block.id, c.block.header);
      forall b | b in h.headers && b != h.genesis
        ensures exists p | p in h.headers[b].parents :: p in h.headers && h.headers[p].height + 1 == h.headers[b].height
        ensures forall p | p in h.headers[b].parents ::
                  p in h.headers && h.headers[p].timestamp <= h.headers[b].timestamp
      {
        var header := h.headers[b];
        var p :| p in header.parents && p in g.headers && g.headers[p].height + 1 == header.height;
        assert h.headers[p] == g.headers[p];
      }
    }
  }

  /** No block is older than an ancestor. */
  lemma {:induction false} TimestampsFollowAncestry(g: Graph, b: Hash, x: Hash)
    requires g.Valid() && Lawful(g) && b in g.headers && x in g.Past(b)
    ensures g.headers[x].timestamp <= g.headers[b].timestamp
    decreases g.Height(b)
  {
    hide Graph.PastOver;
    var p := AncestorThroughParent(g, g.headers[b].parents, x);
    if x != p {
      TimestampsFollowAncestry(g, p, x);
    }
  }

  /** A path from the genesis, each block a parent of the next. */
  ghost predicate IsPath(g: Graph, path: seq<Hash>) {
    && path != [] && path[0] == g.genesis
    && forall i | 0 < i < |path| :: g.Child(path[i]) && path[i - 1] in g.headers[path[i]].parents
  }

  /** The height of a block is the length of a longest path from the genesis: no path is longer. */
  lemma {:induction false} PathsAreShort(g: Graph, path: seq<Hash>, i: nat)
    requires g.Valid() && IsPath(g, path) && i < |path|
    ensures path[i] in g.headers && i <= g.headers[path[i]].height
  {
    if i > 0 {
      PathsAreShort(g, path, i - 1);
    }
  }

  /** And some path is as long. */
  lemma {:induction false} LongestPath(g: Graph, b: Hash) returns (path: seq<Hash>)
    requires g.Valid() && Lawful(g) && b in g.headers
    ensures IsPath(g, path) && path[|path| - 1] == b && |path| == g.headers[b].height + 1
    decreases g.Height(b)
  {
    hide IsPath;
    if b == g.genesis {
      path := [b];
      SoloPath(g);
    } else {
      var p :| p in g.headers[b].parents && p in g.headers && g.headers[p].height + 1 == g.headers[b].height;
      var before := LongestPath(g, p);
      path := before + [b];
      OneMore(g, before, b);
    }
  }

  lemma SoloPath(g: Graph)
    ensures IsPath(g, [g.genesis])
  {
  }

  lemma OneMore(g: Graph, path: seq<Hash>, b: Hash)
    requires IsPath(g, path) && g.Child(b) && path[|path| - 1] in g.headers[b].parents
    ensures IsPath(g, path + [b])
  {
  }
}
