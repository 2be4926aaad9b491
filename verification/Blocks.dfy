/**
 Blocks of the ordering layer and the rules a block is refused by. A block id is the digest of its
 header; digests are uninterpreted here, so an id is a value the block carries and the payload root
 is whatever the function in `Digests` says.
 */
module Blocks {
  import opened Ranking
  import opened Words
  import opened Wrappers

  const ZERO: Hash := 0

  datatype Header = Header(parents: seq<Hash>, height: nat, timestamp: nat, nonce: nat, payloadRoot: Hash)

  datatype Block = Block(id: Hash, header: Header, txIds: seq<Hash>)

  /** The digests of the network: the payload commitment and the leading zero bits of an id. */
  datatype Digests = Digests(payloadRoot: seq<Hash> -> Hash, zeroBits: Hash -> nat)

  datatype Policy = Policy(difficultyBits: nat, maxFutureMs: nat)

  datatype DagError =
    | PayloadRootMismatch(announced: Hash, computed: Hash)
    | ZeroParent
    | UnknownParent(parent: Hash)
    | Duplicate(id: Hash)
    | HeightMismatch(announcedHeight: nat, computedHeight: nat)
    | TimestampBehind(timestamp: nat, parentTimestamp: nat)
    | TimestampFuture(timestamp: nat, limit: nat)
    | InsufficientWork(found: nat, required: nat)
    | UnknownBlock(id: Hash)

  function Max(a: nat, b: nat): nat {
    if a < b then b else a
  }

  /** The first parent of the list that is not held, if there is one. */
  function FirstUnknown(headers: map<Hash, Header>, parents: seq<Hash>): (r: Option<Hash>)
    ensures r.None? <==> forall p | p in parents :: p in headers
  {
    if parents == [] then None
    else if parents[0] !in headers then Some(parents[0])
    else FirstUnknown(headers, parents[1..])
  }

  /** One plus the greatest height among held parents. */
  function HeightOver(headers: map<Hash, Header>, parents: seq<Hash>): (h: nat)
    requires forall p | p in parents :: p in headers
    ensures forall p | p in parents :: headers[p].height < h
    ensures parents != [] ==> exists p | p in parents :: h == headers[p].height + 1
    decreases |parents|
  {
    if parents == [] then 0
    else
      var last := parents[|parents| - 1];
      var front := parents[..|parents| - 1];
      assert parents == front + [last];
      Max(HeightOver(headers, front), headers[last].height + 1)
  }

  /** The greatest timestamp among held parents. */
  function TimestampOver(headers: map<Hash, Header>, parents: seq<Hash>): (t: nat)
    requires forall p | p in parents :: p in headers
    ensures forall p | p in parents :: headers[p].timestamp <= t
    ensures parents != [] ==> exists p | p in parents :: t == headers[p].timestamp
    decreases |parents|
  {
    if parents == [] then 0
    else
      var last := parents[|parents| - 1];
      var front := parents[..|parents| - 1];
      assert parents == front + [last];
      Max(TimestampOver(headers, front), headers[last].timestamp)
  }

  /** What one more parent of a list brings to the three passes above. */
  lemma HeaderStep(headers: map<Hash, Header>, parents: seq<Hash>, i: nat)
    requires i < |parents| && forall p | p in parents[..i] :: p in headers
    ensures FirstUnknown(headers, parents[i..]) ==
            if parents[i] in headers then FirstUnknown(headers, parents[i + 1..]) else Some(parents[i])
    ensures parents[i] in headers ==>
              && (forall p | p in parents[..i + 1] :: p in headers)
              && HeightOver(headers, parents[..i + 1]) ==
                 Max(HeightOver(headers, parents[..i]), headers[parents[i]].height + 1)
              && TimestampOver(headers, parents[..i + 1]) ==
                 Max(TimestampOver(headers, parents[..i]), headers[parents[i]].timestamp)
  {
    var front := parents[..i + 1];
    assert front[..i] == parents[..i] && front[i] == parents[i];
    assert front == parents[..i] + [parents[i]];
    assert parents[i..][1..] == parents[i + 1..];
  }

  /** The rules an insertion checks, in their order: the first one broken, if any. */
  function Refusal(headers: map<Hash, Header>, digests: Digests, block: Block, policy: Policy, nowMs: nat)
    : (r: Option<DagError>)
    ensures r.None? ==>
              && block.id !in headers
              && (forall p | p in block.header.parents :: p in headers && headers[p].height < block.header.height)
  {
    var header := block.header;
    var root := digests.payloadRoot(block.txIds);
    var unknown := FirstUnknown(headers, header.parents);
    var limit := SaturatingAdd(nowMs, policy.maxFutureMs);
    if root != header.payloadRoot then Some(PayloadRootMismatch(header.payloadRoot, root))
    else if block.id in headers then Some(Duplicate(block.id))
    else if header.parents == [ZERO] then Some(ZeroParent)
    else if unknown.Some? then Some(UnknownParent(unknown.value))
    else if header.height != HeightOver(headers, header.parents) then
      Some(HeightMismatch(header.height, HeightOver(headers, header.parents)))
    else if header.timestamp < TimestampOver(headers, header.parents) then
      Some(TimestampBehind(header.timestamp, TimestampOver(headers, header.parents)))
    else if header.timestamp > limit then Some(TimestampFuture(header.timestamp, limit))
    else if digests.zeroBits(block.id) < policy.difficultyBits then
      Some(InsufficientWork(digests.zeroBits(block.id), policy.difficultyBits))
    else None
  }

  /** What opening on a genesis block refuses. */
  function GenesisRefusal(digests: Digests, genesis: Block): Option<DagError> {
    var header := genesis.header;
    var root := digests.payloadRoot(genesis.txIds);
    if header.parents != [ZERO] then Some(ZeroParent)
    else if header.height != 0 then Some(HeightMismatch(header.height, 0))
    else if root != header.payloadRoot then Some(PayloadRootMismatch(header.payloadRoot, root))
    else None
  }
}
