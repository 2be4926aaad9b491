# Antumbra: a verified model of the consensus spine

This project models the path a block takes through an Antumbra node, from insertion to money, and proves what
that path is for. It also models four self-contained pieces whose correctness rests on arithmetic or on a
protocol argument.

* **Ordering layer.** `Graphs` defines the derived state of a block graph as functions of the accepted headers
  alone: transitive pasts, selected parents, greedy blue sets, blue scores, the recursive consensus order.
  `Dag.dfy` is the closure-based reference and `Store.dfy` the fast node store, both imperative classes proved
  against those functions. `Ancestry`, `Coloring`, `Clusters`, `Ordering` and `Growth` prove what the derived
  state guarantees; `Runs` proves that it does not depend on the order of insertion, and that the store refines the
  reference. `Admission` says which blocks are accepted and what that leaves in every reachable graph, and
  `Exactness` pins the derived state of each block by conditions on the headers and on the blocks below it.
* **Ledger.** `Ledgers.Books` is the value of a ledger and `Apply` what one block does to it; the class keeps the
  books in its fields. `Overlays` proves the scratch overlay right against applying transactions one at a time;
  `Supply` proves conservation, the supply law and single spending over whole histories, and `Reuses` shows what a
  coinbase carried twice does; `Treasuries` says when the treasury holds what the calendar paid it; `Mirrors` proves
  when the independent ledger of the vector generator agrees; `Calendar` and `Emission` prove the emission calendar
  exact. `Verdicts` says when a block is accepted, and what it leaves, of its transactions and the ledger before it
  alone, with no overlay and no order of checks.
* **Engine.** `Engine.dfy` moves store, transaction bodies and ledger together. As long as every call succeeds, the
  ledger is after each insertion a fresh ledger folded over the consensus order of the best tip, one array lookup
  decides exactly whether it may be extended or must be rebuilt, and the next insertion succeeds exactly when that
  fold does. `Stalls` shows what may follow a refusal.
* **Codecs.** `Wire`, `TxCodec`, `BlockCodec` and `Base58`: decoding accepts exactly the canonical encodings.
  `Layouts` says where every byte of them stands, `Refusals` what the decoders answer to bytes that go wrong, and
  `Numerals` what the base 58 strings and the words of a draw are.
* **Finality, draw, votes, ring signatures.** `Finality`, `Draws`, `Votes`, `Mlsag` and `RingCodec`. `Evidence` says
  when a checkpoint is final and when evidence convicts, and that a seat which signed one message a sequence is
  convicted by none; `Ballots` gives the tally and the quorum of the votes alone; `Rings` ties every verified
  signature to the hash of its message.

Functions such as `Apply`, `Verifies` or `TallyOf` say what one operation computes, and the methods are proved
against them. The lemmas whose names end in `Exactly` then say what those results are of the arguments alone, with
every constant of the protocol written out: when each is reached and what it is, in both directions.

Conventions. A digest, a key or a signature is the big-endian value of its bytes, so byte order and numeric order
coincide. Digests, signature verification, point decoding and hash-to-point are uninterpreted functions passed as
parameters. Block ids are digests of headers, so a block carries its id as a value. Addition that the code
checks or saturates is written out. Where the code would panic past the end of the calendar table the model reports
`Panicked`. Sums and products the code leaves unchecked panic in a build with overflow checks, as the development
and test profiles are, and wrap in a release build, which code/Cargo.toml gives none; the model follows the former
and reports `Panicked` or no result, except that the conservation check is modelled in both. The well-formedness
that header decoding guarantees, parents present, is a precondition of insertion.

Where the code and its own documentation differ, the model follows the code:

* The coloring, documented as a K-cluster, bounds only the candidate's anticone, so a blue set need not be one:
  `Clusters.BluesNeedNotCluster` is a run of twelve blocks of different headers that breaks it, and
  `Clusters.BluesAreCluster` says exactly when the blues are a K-cluster. What always holds is the insertion sequence
  and the K + 1 width bound (`Coloring.BlueWidth`).
* Coinbase outputs are written unchecked at commit, and nothing in a coinbase names its block, so two blocks of one
  height, parallel in the graph, may carry the same one: the second overwrites the first and the supply law fails
  (`Reuses.TwoBlocksOneCoinbase`, under every digest). `Supply.UnspentIsEmitted` gives the exact condition. When
  the second block also spends the matured output of the first, the commit drops what it has just created
  (`Reuses.MergedCoinbaseIsDropped`).
* Signing a checkpoint does not sort the seats, although the encoding is documented as ascending: a collected
  checkpoint survives its own encoding exactly when the seats signed in order
  (`Finality.CollectedRoundTripsInOrder`); seat 5 before seat 2 does not (`Finality.SignTwoSeats`).
* Signing a ring excludes neither zero scalars nor a ring of one, both of which the decoder refuses
  (`RingCodec.SignedRoundTripsUnlessZero`, `RingCodec.RingOfOneIsRefused`).
* A vote that finds every damper slot owned by other families counts as one more family each time it appears, so
  the families field is exact only under the condition of `Votes.FamiliesAreCounted`; sixty-five families can count
  as sixty-six (`Votes.SixtyFiveFamiliesCountSixtySix`).
* The two ledgers agree exactly on histories without a block of height zero after the genesis: to such a block the
  node gives a slot, and the vector generator does not (`Mirrors.HistoriesMirrorExactly`).
* A ledger refusal in mid-suffix leaves the frontier at a block whose order the ledger need not have applied. A later
  insertion may then succeed on the wrong books (`Stalls.StalledRun`, a run of the engine);
  `Engines.SuccessIsFreshFold` says exactly when a success can be trusted, from any state.
* The word stream of the draw is documented as the first sixteen bytes of each block; the code reads both halves of a
  block before it hashes the next, and `Draws.WordAt` follows the code.

## Model

| member | source | states |
|---|---|---|
| `Ancestry.ScoreGrows` | code/crates/antumbra-dag/src/dag.rs:247-292 | a block outscores every one of its ancestors, along merged parents as well as selected ones |
| `Ancestry.RedundantParentNeverSelected` | code/crates/antumbra-dag/src/dag.rs:247-262 | a parent that is an ancestor of another parent is never the selected parent |
| `Ancestry.PastTransitive` | code/crates/antumbra-dag/src/dag.rs:229-246 | the past is closed under ancestry: the past of an ancestor lies inside |
| `Ancestry.BestTipIsHeaviest` | code/crates/antumbra-dag/src/dag.rs:355-365 | the best tip has the maximum score over all blocks; a block that ties with it is a tip of a larger or equal id |
| `Coloring.BlueSequence` | code/crates/antumbra-dag/src/dag.rs:263-292 | every blue set has an insertion sequence, threaded through the selected-parent recursion, in which each blue has at most K anticone members before it |
| `Coloring.BlueWidth` | code/crates/antumbra-dag/src/dag.rs:263-292 | any pairwise-unrelated subset of a blue set has at most K + 1 blocks |
| `Clusters.BluesAreCluster` | code/crates/antumbra-dag/src/dag.rs:263-292 | a blue set is a K-cluster if and only if, at every coloring along the selected chain, no candidate that joined was unrelated to a working block that already had K unrelated blues |
| `Clusters.ColoringKeepsCluster` | code/crates/antumbra-dag/src/dag.rs:263-292 | one coloring: the blues are a K-cluster if and only if those of the selected parent are and the guard the loop omits held for every candidate that joined |
| `Clusters.GreedyKeepsCluster` | code/crates/antumbra-dag/src/dag.rs:280-291 | the loop keeps a K-cluster if and only if every candidate that joins leaves room in its anticone |
| `Clusters.BluesNeedNotCluster` | code/crates/antumbra-dag/src/dag.rs:280-291 | twelve insertions of blocks with different headers, accepted under every header digest that gives these ids, of which there are some, after which one blue of the last block is unrelated to nine others |
| `Ordering.OrderListsView` | code/crates/antumbra-dag/src/dag.rs:405-438 | the consensus order lists the past of the tip and the tip, each once |
| `Ordering.GenesisIsFirst` | code/crates/antumbra-dag/src/dag.rs:405-438 | the order starts with the genesis |
| `Ordering.TipIsLast` | code/crates/antumbra-dag/src/dag.rs:405-438 | the order ends with its tip |
| `Ordering.OrderIsTopological` | code/crates/antumbra-dag/src/dag.rs:405-438 | every ancestor of a listed block stands before it, so every parent before its child |
| `Ordering.OrderIsAppendOnly` | code/crates/antumbra-dag/src/dag.rs:396-438 | along the selected-parent chain each order is a prefix of the next |
| `Ordering.MergedNeverOutscores` | code/crates/antumbra-dag/src/dag.rs:247-262 | no block merged by a block outscores its selected parent |
| `Ordering.LookupIsExact` | code/crates/antumbra-node/src/engine.rs:361-365 | position applied - 1 of the order of a tip holds the frontier if and only if the frontier is on the selected-parent chain of the tip |
| `Growth.OrderStable` | code/crates/antumbra-dag/src/dag.rs:405-438 | growing the graph changes the consensus order of no held block |
| `Growth.BluesOverStable` | code/crates/antumbra-dag/src/dag.rs:263-292 | growing the graph changes the blue set of no held block |
| `Growth.TipsGrow` | code/crates/antumbra-dag/src/dag.rs:302-311 | an accepted block replaces its parents among the tips |
| `Dags.Dag.New` | code/crates/antumbra-dag/src/dag.rs:138-174 | opening accepts exactly a genesis whose rules hold, names the first rule broken otherwise, and holds the genesis alone |
| `Dags.Dag.Insert` | code/crates/antumbra-dag/src/dag.rs:186-313 | the verdict of the rule battery in its order; on acceptance past, blues, score, selected parent, children and tips of every node are those of the grown graph, on refusal nothing changes |
| `Dags.Dag.CheckRules` | code/crates/antumbra-dag/src/dag.rs:186-246 | the first rule broken among root, duplicate, zero parent, unknown parent, height, timestamps and work; otherwise the union of the parents' views |
| `Dags.Dag.SelectParent` | code/crates/antumbra-dag/src/dag.rs:247-262 | the selected parent of the graph, which comes before every other parent by higher score, then by smaller id |
| `Dags.Dag.Color` | code/crates/antumbra-dag/src/dag.rs:263-292 | the blue set of the greedy coloring over the sorted new past |
| `Dags.Dag.Grow` | code/crates/antumbra-dag/src/dag.rs:280-291 | each candidate joins exactly when its anticone in the working set has at most K members |
| `Dags.Dag.CountAnticone` | code/crates/antumbra-dag/src/dag.rs:280-289 | the number of working blocks unrelated to a candidate |
| `Dags.Dag.GetBestTip` | code/crates/antumbra-dag/src/dag.rs:355-365 | the tip of highest score, ties by the smallest id |
| `Dags.Dag.ConsensusOrder` | code/crates/antumbra-dag/src/dag.rs:405-438 | the recursive consensus order of a held tip; an unknown tip is refused |
| `Dags.Dag.Chain` | code/crates/antumbra-dag/src/dag.rs:408-416 | the selected-parent chain of a tip, genesis first |
| `Dags.Dag.OrderAlong` | code/crates/antumbra-dag/src/dag.rs:417-437 | appending what each chain block adds to the previous view builds the consensus order |
| `Ranking.SortRanked` | code/crates/antumbra-dag/src/dag.rs:270-276 | the sort of a set by rank then id yields its one sorted listing |
| `Ranking.SortedUnique` | code/crates/antumbra-dag/src/dag.rs:270-276 | a ranked set has exactly one ascending listing |
| `Runs.SameBlocksSameGraph` | code/crates/antumbra-dag/src/dag.rs:186-313 | two accepted runs over the same blocks end in the same graph, whatever the order of insertion |
| `Runs.SameBlocksSameState` | code/crates/antumbra-dag/src/dag.rs:186-313 | two DAGs on the same blocks have identical node tables and tips |
| `Runs.ReorderedRunIsAccepted` | code/crates/antumbra-dag/src/dag.rs:186-246 | a reordering that keeps parents before children is accepted call by call |
| `Admission.AcceptedExactly` | code/crates/antumbra-dag/src/dag.rs:192-246 | a block is accepted exactly when it commits to its payload, its id is new, its parents are held and not the zero hash alone, it stands one above the highest of them, none is younger, it is not beyond the clock and its id carries the work |
| `Admission.EarlyRefusals` | code/crates/antumbra-dag/src/dag.rs:192-219 | a wrong payload root, a known id and the zero parent are named in this order, then the first parent of the list that is not held |
| `Admission.LateRefusals` | code/crates/antumbra-dag/src/dag.rs:220-245 | over held parents: height against the highest, timestamp against the latest, the clock limit, then the work, each with the values at odds, else acceptance |
| `Admission.VerdictsExactly` | code/crates/antumbra-node/src/store.rs:190-254 | reference and store give one verdict under the same conditions, except that the store refuses a merge once it holds 1024 blocks |
| `Admission.RunsAreLawful` | code/crates/antumbra-dag/src/dag.rs:207-231 | in every graph a run of calls reaches, each block but the genesis stands one above some parent and is as young as each |
| `Admission.TimestampsFollowAncestry` | code/crates/antumbra-dag/src/dag.rs:226-231 | there no block is older than an ancestor |
| `Admission.PathsAreShort` | code/crates/antumbra-dag/src/dag.rs:217-225 | no path from the genesis is longer than the height of its end |
| `Admission.LongestPath` | code/crates/antumbra-dag/src/dag.rs:217-225 | and some path is as long: heights are lengths of longest paths |
| `Exactness.PastExactly` | code/crates/antumbra-dag/src/dag.rs:210-219 | a block is in the past of another exactly when it is one of its parents or in the past of one |
| `Exactness.GenesisExactly` | code/crates/antumbra-dag/src/dag.rs:155-174 | the genesis has no past and no blues, scores one and is its own order |
| `Exactness.SelectedExactly` | code/crates/antumbra-dag/src/dag.rs:247-257 | the selected parent is the one parent that comes before all others, by higher score, then by smaller id |
| `Exactness.BluesExactly` | code/crates/antumbra-dag/src/dag.rs:263-292 | the blues are the selected parent with its own, and of the rest of the past, by descending score then ascending id, exactly each block unrelated to at most eight blues accepted before it |
| `Exactness.OrderExactly` | code/crates/antumbra-dag/src/dag.rs:405-438 | the order goes on from that of the selected parent with the rest of the view by ascending height then ascending id |
| `Exactness.BestTipExactly` | code/crates/antumbra-dag/src/dag.rs:355-365 | the best tip is the one block that comes before all others, by higher score, then by smaller id |
| `Stores.ChainPath` | code/crates/antumbra-node/src/store.rs:263-277 | a single-parent block has its parent's score plus one, one more order slot and itself as fresh set |
| `Stores.ForkPath` | code/crates/antumbra-node/src/store.rs:278-297 | the fresh set of a merge is its order beyond the order of its selected parent |
| `Stores.Store.New` | code/crates/antumbra-node/src/store.rs:131-175 | opening accepts exactly a genesis whose rules hold, with a mirror of the same graph |
| `Stores.Store.Insert` | code/crates/antumbra-node/src/store.rs:190-323 | the verdict of the reference insertion, except that merges are refused once the window is closed; the store stays valid: exact nodes, tips, mirror and best order |
| `Stores.Store.ColorChain` | code/crates/antumbra-node/src/store.rs:263-277 | the constant-time path computes what the reference coloring would |
| `Stores.ColorFork` | code/crates/antumbra-node/src/store.rs:278-297 | the mirror's answers are the node of a merge |
| `Stores.Store.FeedMirror` | code/crates/antumbra-node/src/store.rs:255-261 | the mirror accepts whatever the store's rules accepted |
| `Stores.Store.CheckRules` | code/crates/antumbra-node/src/store.rs:196-245 | the rule battery gives the reference's first broken rule |
| `Stores.Store.RefreshOrder` | code/crates/antumbra-node/src/store.rs:330-367 | afterwards the materialized order is the consensus order of the best tip and the positions are its exact inverse |
| `Stores.Store.Refreshed` | code/crates/antumbra-node/src/store.rs:330-367 | the same for the values computed, whichever branch ran: same tip, walk met, walk limit, genesis reached |
| `Stores.Store.WalkDown` | code/crates/antumbra-node/src/store.rs:335-365 | a walk that meets the old tip collects exactly the suffix of the new order |
| `Stores.Store.RebuildOrder` | code/crates/antumbra-node/src/store.rs:372-395 | the stacked fresh sets of the chain pop into the consensus order with its index |
| `Stores.AppendAll` | code/crates/antumbra-node/src/store.rs:339-345 | popping fresh sets extends order and positions together |
| `Stores.Store.GetBestTip` | code/crates/antumbra-node/src/store.rs:431-441 | the tip of highest score, ties by the smallest id |
| `Stores.Store.ConsensusOrder` | code/crates/antumbra-node/src/store.rs:502-524 | the consensus order of any held block, from the stored chain alone |
| `Runs.StoreRefinesReference` | code/crates/antumbra-node/src/store.rs:190-323 | over a whole run store and reference give the same verdicts exactly when no accepted merge lands beyond the window, and then hold the same graph |
| `Runs.StoreAndReferenceAgree` | code/crates/antumbra-node/src/store.rs:423-516 | on one graph they agree on tips, scores, selected parents, children, order lengths, best tip and order |
| `Runs.CallBoth` | code/crates/antumbra-node/src/store.rs:190-323 | one call to both, mirror alive or dropped: same verdict, same graph |
| `Runs.RunBoth` | code/crates/antumbra-node/src/store.rs:190-323 | a differential run never parts while merges stay inside the window |
| `Engines.LookupDecides` | code/crates/antumbra-node/src/engine.rs:361-365 | the lookup hits exactly on the chain of the best tip, and then the applied order is a prefix of the new one |
| `Engines.SettledStays` | code/crates/antumbra-node/src/engine.rs:412-420 | neither a new block nor a new transaction body changes a payload already applied |
| `Engines.Engine.Boot` | code/crates/antumbra-node/src/engine.rs:199-221 | the booted engine is synced: its ledger has applied the genesis and nothing else |
| `Engines.Engine.PayloadOf` | code/crates/antumbra-node/src/engine.rs:412-420 | the payload that the folds fetch: the height of the block and the body of each id, in the order of the list, or nothing when the block or a body is missing |
| `Engines.FetchExactly` | code/crates/antumbra-node/src/engine.rs:412-420 | a payload is there exactly when the block is held and every id it lists is registered, and is then the height of the block and, position by position, the bodies of its list |
| `Engines.Engine.ApplyPayload` | code/crates/antumbra-node/src/engine.rs:367-374 | a missing payload is named; a refusal is the ledger error and changes nothing; otherwise the ledger and the emission checks advance by the slot together |
| `Engines.Engine.ExtendLedger` | code/crates/antumbra-node/src/engine.rs:366-375 | the ledger, and the refusal, are those of folding the suffix of the best order; the frontier is the last block applied, and the checks moved slot by slot with it |
| `Engines.Engine.RebuildLedger` | code/crates/antumbra-node/src/engine.rs:384-407 | the refusal is that of a fresh ledger folded over the best order; without one that ledger replaces the old one, with one the old ledger and frontier stay while the checks are those of the abandoned replay |
| `Engines.Engine.SyncLedger` | code/crates/antumbra-node/src/engine.rs:361-379 | from any state: ledger, frontier and refusal as folding the suffix on a hit, or the whole order on a miss, gives them; from an exact ledger the verdict is that of a fresh fold over the best order, and the miss happens exactly when the frontier left the chain |
| `Engines.SyncDecides` | code/crates/antumbra-node/src/engine.rs:361-407 | extending and rebuilding give one verdict: an exact ledger is refused exactly when, and for what, a fresh ledger over the best order is, and otherwise ends as that ledger |
| `Engines.RefusedSyncStands` | code/crates/antumbra-node/src/engine.rs:366-375 | after a refusal the ledger is the fold of the order of its frontier if and only if it applied as many slots as that order has |
| `Engines.LookupIsSoundExactly` | code/crates/antumbra-node/src/engine.rs:363-365 | the lookup decides chain membership for every tip if and only if the slots applied are the length of the order of the frontier |
| `Engines.SyncKeepsFold` | code/crates/antumbra-node/src/engine.rs:361-407 | in any state, refusals included, the ledger is a fresh one folded over some ids with the frontier last, and a synchronisation carries that over |
| `Engines.SuccessIsFreshFold` | code/crates/antumbra-node/src/engine.rs:361-407 | a success from any state: after a miss the ledger is the fresh fold over the best order, after a hit exactly when the part taken as applied, folded afresh, is carried by the suffix to the same books, so whenever the ids behind the books are that part |
| `Stalls.StalledRun` | code/crates/antumbra-node/src/engine.rs:349-375 | an engine run from boot: five insertions, one refused in mid-suffix for a missing body, then one that hits the lookup off the chain and reports success on books that are not the fold of the best order |
| `Stalls.SomeSettingIsUsable` | code/crates/antumbra-node/src/engine.rs:349-375 | the run exists: some transaction digest tells its three claims apart and leaves an id without a body |
| `Engines.Engine.RegisterPayload` | code/crates/antumbra-node/src/engine.rs:262-264 | the body stands under its id, over whatever stood there; a synced engine stays synced unless that was another body |
| `Engines.Engine.InsertBlock` | code/crates/antumbra-node/src/engine.rs:349-357 | a store refusal changes nothing; otherwise ledger, frontier and verdict are those of the synchronisation, from any state; from an exact ledger the insertion succeeds if and only if a fresh ledger accepts the whole new best order, leaves the engine synced, and otherwise reports what that ledger refuses |
| `Engines.SyncedLedgerIsFold` | code/crates/antumbra-node/src/engine.rs:349-407 | the ledger of a synced engine is a fresh ledger folded over the consensus order of the best tip, its slots are the positions of that order, and its emission is the recomputed one |
| `Engines.Engine.CheckAccounting` | code/crates/antumbra-node/src/invariants.rs:46-86 | slot alignment and emission accounting always pass on a synced engine; conservation passes exactly while the applied history created no more than a u64 counts, in either build; tip shape and mempool hygiene hold exactly when the best tip is the only one, where asked for, and no claimed output is spent |
| `Engines.Engine.CheckTreasury` | code/crates/antumbra-node/src/invariants.rs:101-115 | on a synced engine the balance of the treasury address equals the recomputed shares exactly when the applied history took from that address what it paid to it beside the shares |
| `Treasuries.TreasuryIsShares` | code/crates/antumbra-node/src/invariants.rs:101-115 | on every accepted history of blocks with heights the unspent treasury outputs are worth the shares of the applied slots if and only if takings equal donations |
| `Treasuries.BlockTreasury` | code/crates/antumbra-state/src/ledger.rs:378-403 | an accepted block changes the unspent outputs of the treasury by its share, plus what else pays that address, minus what the block consumes or overwrites of it |
| `Treasuries.CoinbasePaysShare` | code/crates/antumbra-state/src/ledger.rs:249-270 | an accepted coinbase of an active slot pays the treasury its share in the second output |
| `Engines.ChecksAreMinted` | code/crates/antumbra-node/src/engine.rs:91-102 | the independent emission check is the sum of the rewards of the applied slots |
| `Engines.ChecksAreShares` | code/crates/antumbra-node/src/engine.rs:91-102 | the independent treasury check is the sum of the treasury shares of the applied slots, below the cap |
| `Ledgers.Ledger.ValidateCoinbase` | code/crates/antumbra-state/src/ledger.rs:211-272 | the first coinbase rule broken, in order |
| `Ledgers.Ledger.SpendInput` | code/crates/antumbra-state/src/ledger.rs:283-335 | one input: existence, unspentness, key binding, maturity, overflow, in order |
| `Ledgers.Ledger.ValidateTransferOver` | code/crates/antumbra-state/src/ledger.rs:277-374 | the overlay after a transfer, or the first rule it breaks |
| `Ledgers.Ledger.Validate` | code/crates/antumbra-state/src/ledger.rs:156-207 | sorted ids, empty height-zero payload, one coinbase, fee sum, then each transaction over the overlay |
| `Ledgers.Ledger.CommitBlock` | code/crates/antumbra-state/src/ledger.rs:378-403 | the whole new state of a commit: outputs, spent references, counters, slot |
| `Ledgers.Ledger.ApplyBlock` | code/crates/antumbra-state/src/ledger.rs:147-152 | a block is applied whole or, with its error named, changes nothing |
| `Ledgers.Ledger.ApplyWholeOrder` | code/crates/antumbra-state/src/ledger.rs:116-138 | the genesis first, then every block; a rejection leaves the state of the last accepted block |
| `Ledgers.Ledger.CheckConservation` | code/crates/antumbra-state/src/ledger.rs:461-470 | passes exactly when created = spent + emitted as the addition computes it: panicking past the u64 range with overflow checks, wrapping without |
| `Verdicts.TransferExactly` | code/crates/antumbra-state/src/ledger.rs:277-374 | a transfer is accepted exactly when it has inputs, each of another output that stands unspent, under the key of the input and at least ten slots old if it was mined, its inputs are worth its fee and outputs, no counter overflows, and none of the references it creates was ever in use |
| `Verdicts.CoinbaseExactly` | code/crates/antumbra-state/src/ledger.rs:211-272 | a coinbase is accepted exactly when it has no inputs and no fee, declares the height in eight bytes, its outputs are worth reward and fees, and up to slot 504921600 there are two, the second paying 618 in 10000 of the reward to the treasury, after it one |
| `Verdicts.BlockExactly` | code/crates/antumbra-state/src/ledger.rs:156-207 | a block is accepted exactly when its ids ascend and, unless it is empty at height zero, one transaction is the coinbase the slot owes, every other is funded by what stands before it, and what they move fits in a u64 |
| `Verdicts.SpentIsOwnedAndMature` | code/crates/antumbra-state/src/ledger.rs:310-329 | whatever an accepted block spends stands under an address whose spend key is the key of the input, and what a coinbase of slot s brought waits for slot s + 10 |
| `Verdicts.LedgerExactly` | code/crates/antumbra-state/src/ledger.rs:378-403 | after an accepted block what an input named is spent and gone, every other output of the block stands, a mined one with its slot, and what the block did not touch stands as before |
| `Verdicts.TotalsExactly` | code/crates/antumbra-state/src/ledger.rs:188-196 | what each total of a payload, fees, outputs and moved value, gains from one more transaction |
| `Verdicts.SumExactly` | code/crates/antumbra-state/src/ledger.rs:238-242 | the sum of some outputs grows by the amount of each, from nothing |
| `Supply.WrappedSumNeverMatches` | code/crates/antumbra-state/src/ledger.rs:461-470 | on every accepted history a wrapped sum never equals the created total, so the check fails there in either build |
| `Mirrors.BlocksMirror` | code/scripts/gen_state_vectors.py:378-494 | on a block with a height, unless the node reports leaving its machine words, the independent ledger and the node give the same verdict and their books agree |
| `Mirrors.HistoriesMirror` | code/scripts/gen_state_vectors.py:362-425 | the same over a whole history: when only the genesis has height zero, both ledgers stop at the same place, for the same reason, with the same books |
| `Mirrors.HistoriesMirrorExactly` | code/scripts/gen_state_vectors.py:362-425 | on every history the node accepts whole, the books agree at the end if and only if no block after the genesis has height zero |
| `Mirrors.EmptyBlocksDiffer` | code/scripts/gen_state_vectors.py:391-394 | the genesis and one empty block of height zero: both ledgers accept, and end one slot apart |
| `Mirrors.InputsMirror` | code/scripts/gen_state_vectors.py:457-483 | without overflow both ledgers consume the same inputs for the same value, or refuse for the same reason |
| `Mirrors.MirrorLedger.ValidateTransfer` | code/scripts/gen_state_vectors.py:454-494 | the draft after a transfer, or the first rule it breaks |
| `Mirrors.MirrorLedger.Commit` | code/scripts/gen_state_vectors.py:409-425 | the whole new state of a commit |
| `Mirrors.MirrorLedger.ApplyBlock` | code/scripts/gen_state_vectors.py:378-425 | a block is applied whole or, with its error named, changes nothing |
| `Mirrors.MirrorLedger.ApplyWholeOrder` | code/scripts/gen_state_vectors.py:362-376 | the genesis first, then every block; a rejection leaves the state of the last accepted block |
| `Overlays.TransferFacts` | code/crates/antumbra-state/src/ledger.rs:277-374 | an accepted transfer names distinct available outputs, creates only new references, and keeps value |
| `Overlays.PayloadFacts` | code/crates/antumbra-state/src/ledger.rs:186-206 | an accepted payload names distinct references, none twice in the block, and its overlay accounts for every unit |
| `Overlays.CommitIsUnion` | code/crates/antumbra-state/src/ledger.rs:378-394 | a commit adds exactly the outputs of the transfers and of the coinbase |
| `Overlays.OverlayIsSequential` | code/crates/antumbra-state/src/ledger.rs:156-207 | unless a block names an output of its own coinbase, overlay-then-commit equals applying its transactions one at a time, errors included |
| `Overlays.AcceptedBlocksAgree` | code/crates/antumbra-state/src/ledger.rs:147-207 | one at a time never accepts more, and an accepted block ends in the same state if and only if it names no output of its own coinbase |
| `Overlays.FreshCoinbaseAgrees` | code/crates/antumbra-state/src/ledger.rs:147-207 | with a new coinbase both ways accept the same blocks and end in the same state |
| `Reuses.MergedCoinbaseIsDropped` | code/crates/antumbra-state/src/ledger.rs:379-399 | ten claims from the genesis, then a block of height 1 that spends the first claim and carries it again: accepted, its own output dropped, and one transaction at a time ends elsewhere |
| `Reuses.SomeDigestsKeepApart` | code/crates/antumbra-state/src/ledger.rs:379-399 | the history of that example exists: some digests keep its eleven transactions apart |
| `Supply.BlockCounts` | code/crates/antumbra-state/src/ledger.rs:378-403 | an accepted block creates what it consumes plus the reward of its slot |
| `Supply.CreatedIsSpentPlusEmitted` | code/crates/antumbra-state/src/ledger.rs:461-470 | on every accepted history created = spent + emitted if and only if the outputs ever created total no more than a u64 |
| `Supply.EmissionWithinCap` | code/crates/antumbra-state/src/ledger.rs:391-394 | emitted never exceeds the cumulative calendar of the applied slots, nor the cap |
| `Supply.BlockSupply` | code/crates/antumbra-state/src/ledger.rs:378-403 | the unspent outputs grow by the reward minus exactly what the coinbase overwrites or the block consumes of its own coinbase |
| `Supply.UnspentIsEmitted` | code/crates/antumbra-state/src/ledger.rs:378-403 | on every accepted history the unspent outputs are worth at most the emission, and exactly the emission if and only if no coinbase overwrote an unspent output of some amount or had an output of its own consumed by its block |
| `Supply.LossIsWaste` | code/crates/antumbra-state/src/ledger.rs:379-399 | a coinbase loses value exactly when it wastes such a reference |
| `Supply.FreshSupply` | code/crates/antumbra-state/src/ledger.rs:378-403 | with coinbase references unknown to the ledger the unspent outputs are worth exactly the emission |
| `Supply.BlockReferences` | code/crates/antumbra-state/src/ledger.rs:378-401 | an accepted block consumes each reference once and none spent before; spent and unspent stay disjoint if and only if the coinbase takes no spent reference |
| `Supply.NothingIsSpentTwice` | code/crates/antumbra-state/src/ledger.rs:277-403 | with fresh coinbases no reference is consumed twice over a whole history, and spent and unspent are disjoint |
| `Reuses.TwoBlocksOneCoinbase` | code/crates/antumbra-state/src/ledger.rs:379-394 | under every digest, two blocks of one height with one coinbase emit two rewards and leave one unspent |
| `Supply.OrdersStartAtGenesis` | code/crates/antumbra-state/src/ledger.rs:116-138 | whatever an order does, refused or not, its ledger is a replay of accepted blocks from the genesis |
| `Supply.HistoryMints` | code/crates/antumbra-node/src/invariants.rs:68-71 | when every block has a height the emission is the sum of the rewards of the applied slots |
| `Calendar.MintedClosedForm` | code/crates/antumbra-state/src/coinbase.rs:77-87 | the rewards of slots 1 to n sum to the full eclipses plus position * base + min(position, remainder) |
| `Calendar.MintedNeverExceedsCap` | code/crates/antumbra-state/src/coinbase.rs:77-87 | the sum never exceeds the cap and reaches it at the last slot |
| `Calendar.TableClosesOnCap` | code/crates/antumbra-state/src/coinbase.rs:55-59 | the table sums to the cap, atom for atom |
| `Calendar.SpreadCloses` | code/crates/antumbra-state/src/coinbase.rs:77-87 | a full eclipse mints exactly its emission |
| `Calendar.RewardsAreEven` | code/crates/antumbra-state/src/coinbase.rs:77-87 | inside an eclipse a later slot never mints more than an earlier one, and at most one atom less |
| `Calendar.MintedExactly` | code/crates/antumbra-state/src/coinbase.rs:77-87 | the sum grows by the reward of each slot, from nothing at the genesis, which mints nothing |
| `Calendar.EclipseMintsItsEmission` | code/crates/antumbra-state/src/coinbase.rs:47-87 | the 63115200 slots of each eclipse mint its entry of the table, atom for atom, and the 2145916800 slots of the calendar 1618033900000000 atoms |
| `Emission.FibonacciLucas` | code/scripts/gen_state_vectors.py:249-258 | the loop computes the n-th Fibonacci and Lucas numbers |
| `Emission.LucasIdentity` | code/crates/antumbra-state/src/coinbase.rs:132-141 | L(n)^2 - 5 F(n)^2 = 4 (-1)^n |
| `Emission.PowerIsLucas` | code/scripts/gen_state_vectors.py:261-271 | R^n = (-1)^n (L(n) - sqrt(5) F(n)) / 2 as a half-integer pair |
| `Emission.IsqrtNewton` | code/crates/antumbra-state/src/coinbase.rs:190-206 | Newton's iteration from the power-of-two seed ends at the exact floor root |
| `Emission.NeverASquare` | code/scripts/gen_state_vectors.py:261-271 | five times a positive square is never a square |
| `Emission.FloorBelow` | code/scripts/gen_state_vectors.py:261-281 | for a negative irrational part the one-unit correction gives the floor |
| `Emission.ExactEclipseEmission` | code/scripts/gen_state_vectors.py:261-281 | the integer form is floor(E0 * R^n) for every n |
| `Emission.TableIsExact` | code/crates/antumbra-state/src/coinbase.rs:47-59 | each of the first thirty-three table entries is floor(E0 * R^n) |
| `Votes.StepsAreRootBounded` | code/crates/antumbra-forge/src/vote.rs:52-58 | for every n, (sum of the first n damper steps)^2 <= 4,410,000 n |
| `Votes.FamilyWeighsItsRoot` | code/crates/antumbra-forge/src/vote.rs:69-104 | a family with its own slot and n votes of weight at most w tallies W with 100 W^2 <= 441 w^2 n |
| `Votes.VotesAreFair` | code/crates/antumbra-forge/src/vote.rs:69-104 | each family that owns a slot has exactly its votes there, the k-th damped by the k-th step |
| `Votes.CountVotes` | code/crates/antumbra-forge/src/vote.rs:69-104 | the loop over the slot and key arrays computes the tally, or panics where a counter is full or a product leaves the u64 range |
| `Votes.FamiliesAreCounted` | code/crates/antumbra-forge/src/vote.rs:81-95 | within the range of its counter the tally counts the distinct families if and only if no family beyond the first sixty-four votes twice; with at most sixty-four families it always does |
| `Votes.SixtyFiveFamiliesCountSixtySix` | code/crates/antumbra-forge/src/vote.rs:81-95 | sixty-six votes of sixty-five families, the last one twice, are counted as sixty-six families |
| `Votes.QuorumIsDiverse` | code/crates/antumbra-forge/src/vote.rs:114-126 | short of the u64 range, a quorum carries weight in at least four slots |
| `Ballots.StepExactly` | code/crates/antumbra-forge/src/vote.rs:52-58 | the step of vote k is the greatest number whose product with the floor root of 1000000 (k + 1) is at most 1000000 |
| `Ballots.DampedExactly` | code/crates/antumbra-forge/src/vote.rs:96-100 | what a slot gathers grows by the weight of each vote times the next step, per mille, rounded down |
| `Ballots.TallyExactly` | code/crates/antumbra-forge/src/vote.rs:69-104 | the tally of any votes: it panics exactly at a vote whose slot is full or whose product overflows; otherwise the total is what the votes weigh by their place in their slot, the heaviest is that of the first sixty-four families and of all others taken as one, and every vote of those others counts as a family |
| `Ballots.QuorumExactly` | code/crates/antumbra-forge/src/vote.rs:114-126 | three families, two million millipoints and a heaviest share, in whole per mille and as a u32, of at most 330 |
| `Ballots.QuorumOfVotes` | code/crates/antumbra-forge/src/vote.rs:114-126 | for a tally of votes no slot outweighs the whole, and the share test is 1000 heaviest below 331 total |
| `Base58.RoomForBytes` | code/crates/antumbra-primitives/src/base58.rs:18-20 | 58^size >= 256^n for the whole size table |
| `Base58.BlockDecodes` | code/crates/antumbra-primitives/src/base58.rs:45-79 | an encoded block decodes to its bytes |
| `Base58.BlockReencodes` | code/crates/antumbra-primitives/src/base58.rs:45-79 | a block that decodes encodes back to the same characters |
| `Base58.EncodedDecodes` | code/crates/antumbra-primitives/src/base58.rs:83-142 | decode(encode(b)) = b for byte strings of any length |
| `Base58.DecodedReencodes` | code/crates/antumbra-primitives/src/base58.rs:103-142 | whatever the block loop accepts encodes back to itself |
| `Base58.WriteBlock` | code/crates/antumbra-primitives/src/base58.rs:45-59 | the digit loop writes the fixed-size numeral of the block |
| `Base58.ReadBlock` | code/crates/antumbra-primitives/src/base58.rs:63-79 | the checked digit loop accepts exactly the numerals of values that fit the block |
| `Base58.Base58Encode` | code/crates/antumbra-primitives/src/base58.rs:83-94 | the chunk loop encodes block by block |
| `Base58.Base58Decode` | code/crates/antumbra-primitives/src/base58.rs:103-142 | the result is that of the block loop: the final canonicality check never fires |
| `Numerals.LettersExactly` | code/crates/antumbra-primitives/src/base58.rs:16-16 | the fifty-eight letters are one to nine, A to Z without I and O, a to z without l, in this order |
| `Numerals.EncodedExactly` | code/crates/antumbra-primitives/src/base58.rs:18-94 | a short block is written in a fixed number of letters as its bytes read as one number, and a longer string as its first eight bytes and then the rest |
| `Wire.VarintSound` | code/crates/antumbra-primitives/src/varint.rs:35-59 | a varint that parses is the minimal encoding of a u64 followed by the rest of the input |
| `Wire.VarintComplete` | code/crates/antumbra-primitives/src/varint.rs:12-59 | every u64 parses back from its encoding, whatever follows |
| `Wire.Writer.WriteVarint` | code/crates/antumbra-primitives/src/varint.rs:12-23 | the shifting loop appends the minimal encoding |
| `Wire.ScanVarint` | code/crates/antumbra-primitives/src/varint.rs:35-59 | the accumulating loop reads what the parse says, with the same refusals |
| `Wire.Writer.WriteBytes` | code/crates/antumbra-primitives/src/encode.rs:98-101 | appends the length and the bytes |
| `Wire.Reader.Take` | code/crates/antumbra-primitives/src/encode.rs:141-148 | takes n bytes or refuses without moving |
| `Wire.Reader.ReadBytes` | code/crates/antumbra-primitives/src/encode.rs:199-209 | reads exactly the announced bytes or refuses |
| `Wire.PrefixedSound` | code/crates/antumbra-primitives/src/encode.rs:199-209 | length-prefixed bytes parse only from their own encoding |
| `Wire.PrefixedComplete` | code/crates/antumbra-primitives/src/encode.rs:98-101 | and always parse back from it |
| `Layouts.ByteOrders` | code/crates/antumbra-primitives/src/encode.rs:72-85 | the first byte of a little-endian number is the low one, the last of a big-endian number |
| `TxCodec.AddressSound` | code/crates/antumbra-primitives/src/address.rs:106-139 | 69 bytes that decode are the encoding of the address they decode to |
| `TxCodec.AddressComplete` | code/crates/antumbra-primitives/src/address.rs:106-139 | an address of valid keys decodes from its encoding |
| `TxCodec.DecodedTransactionReencodes` | code/crates/antumbra-tx/src/tx.rs:296-405 | a transaction that decodes is canonical and encodes to exactly the bytes |
| `TxCodec.TransactionRoundTrips` | code/crates/antumbra-tx/src/tx.rs:296-405 | a canonical transaction decodes back to itself |
| `TxCodec.EncodingIsInjective` | code/crates/antumbra-tx/src/tx.rs:296-315 | distinct canonical transactions have distinct encodings |
| `TxCodec.IdsCollideOnlyInDigest` | code/crates/antumbra-tx/src/tx.rs:339-341 | two canonical transactions share an id only through a digest collision |
| `TxCodec.SigningMessageBinds` | code/crates/antumbra-tx/src/tx.rs:320-334 | two canonical transactions share a signing message exactly when they differ in signatures alone |
| `TxCodec.Encode` | code/crates/antumbra-tx/src/tx.rs:296-315 | the field-by-field writer produces the canonical encoding |
| `TxCodec.Decode` | code/crates/antumbra-tx/src/tx.rs:353-405 | the reader returns the first violation or the one transaction encoded |
| `Layouts.VarintExactly` | code/crates/antumbra-primitives/src/varint.rs:12-59 | a varint of a value is the list of bytes whose seven-bit groups, lowest first, make the value, all but the last marked as continued, the last zero only when alone |
| `Layouts.TransactionLayout` | code/crates/antumbra-tx/src/tx.rs:296-315 | where each field of a canonical transaction stands: version, type tag, fee, counted inputs of 132 bytes, counted outputs of 77, counted extra bytes, with the byte order of each number |
| `Layouts.CanonicalTransactionsExactly` | code/crates/antumbra-tx/src/tx.rs:353-405 | the transactions a decoder returns: transfers and coinbases, at most 64 ascending inputs, 32 outputs and 512 extra bytes, whose keys are keys and whose numbers fit their fields |
| `Layouts.SigningMessageExactly` | code/crates/antumbra-tx/src/tx.rs:320-341 | what inputs sign is the encoding with every signature zero and nothing else changed; what names a transaction is the digest of its whole encoding |
| `Refusals.VersionRefused` | code/crates/antumbra-tx/src/tx.rs:353-360 | another version is named before anything else is read |
| `Refusals.TypeRefused` | code/crates/antumbra-tx/src/tx.rs:361-368 | a tag above six is unknown, one of a type to come is unsupported |
| `Refusals.InputsRefused` | code/crates/antumbra-tx/src/tx.rs:369-384 | more than 64 inputs are named before any is read, inputs out of order once all are |
| `Refusals.OutputsRefused` | code/crates/antumbra-tx/src/tx.rs:385-405 | after canonical inputs: more than 32 outputs, more than 512 extra bytes, and bytes left over, each named |
| `BlockCodec.HeaderRoundTrips` | code/crates/antumbra-dag/src/header.rs:119-185 | header decoding accepts exactly the encodings of canonical headers |
| `BlockCodec.BlockRoundTrips` | code/crates/antumbra-dag/src/block.rs:96-141 | block decoding accepts exactly the encodings of canonical blocks, payload root included |
| `BlockCodec.EncodingsAreInjective` | code/crates/antumbra-dag/src/block.rs:96-105 | distinct canonical headers and blocks have distinct encodings |
| `BlockCodec.WriteHeader` | code/crates/antumbra-dag/src/header.rs:119-131 | the writer produces the canonical header encoding |
| `BlockCodec.ReadHeader` | code/crates/antumbra-dag/src/header.rs:143-169 | reads one header and leaves the reader after it, or names the first violation |
| `BlockCodec.ReadWholeHeader` | code/crates/antumbra-dag/src/header.rs:180-185 | accepts exactly the bytes that are one header and nothing more |
| `BlockCodec.WriteBlock` | code/crates/antumbra-dag/src/block.rs:96-105 | the writer produces the canonical block encoding |
| `BlockCodec.ReadBlock` | code/crates/antumbra-dag/src/block.rs:116-141 | the reader returns the first violation or the one block encoded |
| `Layouts.HeaderLayout` | code/crates/antumbra-dag/src/header.rs:119-131 | where each field of a canonical header stands, and in which byte order |
| `Layouts.CanonicalHeadersExactly` | code/crates/antumbra-dag/src/header.rs:143-169 | the headers a reader returns: one to sixteen ascending parents and numbers that fit their fields |
| `Layouts.BlockLayout` | code/crates/antumbra-dag/src/block.rs:96-105 | a canonical block is its header and its counted ids, and the header carries the digest of that list |
| `Layouts.CanonicalBlocksExactly` | code/crates/antumbra-dag/src/block.rs:116-141 | the blocks a reader returns: a canonical header, at most 64 ascending ids, and the payload root they give |
| `Refusals.ParentsRefused` | code/crates/antumbra-dag/src/header.rs:143-169 | no parents and more than sixteen are named before any is read, parents out of order once all are |
| `Refusals.PayloadRefused` | code/crates/antumbra-dag/src/block.rs:116-141 | after a canonical header: too many ids, ids out of order, bytes left over, and only then a root of another list |
| `Finality.NewRoster` | code/crates/antumbra-ring/src/roster.rs:38-55 | a roster has a positive era, at most 55 seats and pairwise distinct keys |
| `Finality.MessageSound` | code/crates/antumbra-ring/src/message.rs:101-120 | a message that reads is canonical and is what was encoded |
| `Finality.MessageComplete` | code/crates/antumbra-ring/src/message.rs:82-120 | a canonical message reads back, whatever follows |
| `Finality.Checkpoint.Sign` | code/crates/antumbra-ring/src/checkpoint.rs:108-118 | signing keeps the seats distinct and at most 55; a refused signature changes nothing |
| `Finality.Checkpoint.Verify` | code/crates/antumbra-ring/src/checkpoint.rs:130-151 | the first rule broken: era, seat range, signature |
| `Finality.Checkpoint.CheckFinal` | code/crates/antumbra-ring/src/checkpoint.rs:96-99 | verified and at least 37 signatures |
| `Finality.ConflictingFinalityConvicts` | code/crates/antumbra-ring/src/equivocation.rs:81-114 | two final checkpoints of one sequence with different messages convict at least nineteen seats, each by evidence that verifies |
| `Finality.SharedSeatIsConvicted` | code/crates/antumbra-ring/src/equivocation.rs:81-114 | a seat that signed both conflicting checkpoints is convicted by its two signatures |
| `Finality.CheckpointRoundTrips` | code/crates/antumbra-ring/src/checkpoint.rs:156-202 | checkpoint decoding accepts exactly the encodings of canonical checkpoints |
| `Finality.DecodedSeatsAreDistinct` | code/crates/antumbra-ring/src/checkpoint.rs:174-202 | a decoded checkpoint has one signature a seat |
| `Finality.CollectedRoundTripsInOrder` | code/crates/antumbra-ring/src/checkpoint.rs:108-202 | a collected checkpoint decodes back from its own encoding when its seats signed in ascending order, and is refused as unsorted whenever they did not |
| `Finality.SignTwoSeats` | code/crates/antumbra-ring/src/checkpoint.rs:108-202 | seat 5 signs, then seat 2: both signatures are taken, and the encoding is refused as unsorted |
| `Finality.WriteCheckpoint` | code/crates/antumbra-ring/src/checkpoint.rs:156-166 | the writer produces the canonical encoding |
| `Finality.ReadCheckpoint` | code/crates/antumbra-ring/src/checkpoint.rs:174-202 | the reader returns the first violation or the one checkpoint encoded |
| `Evidence.FinalExactly` | code/crates/antumbra-ring/src/checkpoint.rs:96-151 | a checkpoint is final exactly when its message is of the era of the roster, every signature collected verifies under the key of its seat, and there are at least thirty-seven |
| `Evidence.FirstInvalidExactly` | code/crates/antumbra-ring/src/checkpoint.rs:137-150 | a refused checkpoint names the first seat that is out of range or whose signature does not verify |
| `Evidence.EvidenceExactly` | code/crates/antumbra-ring/src/equivocation.rs:81-114 | evidence verifies exactly when its seat signed two different messages of the era of the roster and of one sequence |
| `Evidence.EvidenceRefusals` | code/crates/antumbra-ring/src/equivocation.rs:81-114 | what each refusal says: seat, era, sequence, identical messages, signature, each only when the ones before it are kept |
| `Evidence.HonestSeatsAreSafe` | code/crates/antumbra-ring/src/equivocation.rs:81-114 | a seat is convicted by no evidence whatever if and only if its key verifies at most one message a sequence in the era of the roster |
| `Layouts.MessageLayout` | code/crates/antumbra-ring/src/message.rs:82-91 | the 82 bytes a seat signs, field by field |
| `Layouts.CheckpointLayout` | code/crates/antumbra-ring/src/checkpoint.rs:156-166 | a canonical checkpoint is its message and its counted signatures of 66 bytes, the seat first |
| `Layouts.CanonicalCheckpointsExactly` | code/crates/antumbra-ring/src/checkpoint.rs:174-202 | the checkpoints a reader returns: era, sequence and tip above zero, at most 55 seats in ascending order |
| `Refusals.MessageRefused` | code/crates/antumbra-ring/src/message.rs:101-120 | a zero era, sequence or tip is named as soon as it is read |
| `Refusals.SignaturesRefused` | code/crates/antumbra-ring/src/checkpoint.rs:174-202 | after a canonical message: more than 55 signatures, named before any is read, and bytes left over |
| `Refusals.SeatRefused` | code/crates/antumbra-ring/src/checkpoint.rs:180-194 | a seat that already signed is named, wherever its first signature stands |
| `Draws.WordStream.NextWord` | code/crates/antumbra-kleos/src/draw.rs:60-68 | the i-th call returns the i-th half block of the stream |
| `Draws.PickCovers` | code/crates/antumbra-kleos/src/draw.rs:108-117 | the pick is the member whose cumulative interval contains r, and it weighs something |
| `Draws.Select` | code/crates/antumbra-kleos/src/draw.rs:109-117 | the cumulative scan finds that member; the fallback index is never returned |
| `Draws.DrawIsFair` | code/crates/antumbra-kleos/src/draw.rs:83-123 | the draws are distinct, none weightless, and exactly min(seats, candidates of positive weight) |
| `Draws.EachSeatCovers` | code/crates/antumbra-kleos/src/draw.rs:102-121 | each seat goes to the interval containing the next word modulo the live weight, and the live weight drops by the weight drawn |
| `Draws.Draw` | code/crates/antumbra-kleos/src/draw.rs:83-123 | the outcome for every pool and entropy: unsorted candidates, empty list, weightless pool, or the draws |
| `Numerals.WordsExactly` | code/crates/antumbra-kleos/src/draw.rs:45-68 | two words of the stream are the halves of the little-endian digest of the entropy and the block number in eight little-endian bytes |
| `Numerals.WeightExactly` | code/crates/antumbra-kleos/src/draw.rs:94-94 | the weight of a pool is that of its members, one after the other |
| `Numerals.DrawRefusals` | code/crates/antumbra-kleos/src/draw.rs:83-100 | candidates out of order are refused first, then a pool without weight; no candidates draw nobody |
| `Mlsag.ScalarMult` | code/scripts/gen_veil_vectors.py:164-177 | double-and-add computes k times the point |
| `Mlsag.RingVerify` | code/scripts/gen_veil_vectors.py:358-370 | accepts exactly when the chain of challenges returns to the first one |
| `Mlsag.RingSign` | code/scripts/gen_veil_vectors.py:330-355 | the image, the first challenge and every scalar of the signature, which verifies whenever the real key is secret * G |
| `Mlsag.SignedRingVerifies` | code/scripts/gen_veil_vectors.py:330-370 | completeness for every ring, place, message and seed |
| `Mlsag.Closes` | code/scripts/gen_veil_vectors.py:353-354 | alpha - c p cancels the secret on every point |
| `Mlsag.ImagesLink` | code/scripts/gen_veil_vectors.py:307-309 | two signers of one public key have one image, even when their secrets differ as integers, as long as each secret is behind the key and the base generates |
| `Mlsag.ImagesTellSecrets` | code/scripts/gen_veil_vectors.py:307-309 | under one key that hashes to a generator, two images are equal if and only if the secrets are one residue |
| `Rings.VerifiesExactly` | code/scripts/gen_veil_vectors.py:358-370 | a signature verifies exactly when it has a scalar for each member and challenges, each the hash of the domain, the message and two combinations of the member before it, go around the ring and return to the first |
| `Rings.FirstIsHashed` | code/scripts/gen_veil_vectors.py:319-321 | the first challenge of a verified signature is the hash of the domain, the message, s G + c K and s H(K) + c I of the last member |
| `Rings.MessagesCollideOnlyInHash` | code/scripts/gen_veil_vectors.py:319-370 | two verified signatures that share their first challenge, over whatever rings, sign one message or exhibit two different strings with one hash |
| `Rings.SignedExactly` | code/scripts/gen_veil_vectors.py:324-355 | what a signer puts in each place: image, nonces hashed from seed, tag and index, the challenges they send around, and the closing scalar |
| `RingCodec.DecodedSignatureReencodes` | code/scripts/gen_veil_vectors.py:373-406 | a signature that decodes encodes back to exactly the bytes |
| `RingCodec.SignatureRoundTrips` | code/scripts/gen_veil_vectors.py:373-406 | a canonical signature decodes back to itself |
| `RingCodec.SignedRoundTripsUnlessZero` | code/scripts/gen_veil_vectors.py:330-406 | what a signer sends decodes back if and only if the ring size is admissible, no nonce of another member is zero, and neither the first challenge nor the closing scalar is |
| `RingCodec.RingOfOneIsRefused` | code/scripts/gen_veil_vectors.py:330-406 | a ring of one signs and verifies, whatever the secret, and its encoding never decodes |
| `RingCodec.WriteSignature` | code/scripts/gen_veil_vectors.py:373-381 | the encoder produces the canonical encoding |
| `RingCodec.ReadSignature` | code/scripts/gen_veil_vectors.py:384-406 | the decoder accepts exactly what the parse accepts |
| `Layouts.SignatureLayout` | code/scripts/gen_veil_vectors.py:373-381 | where the image, the first challenge, the count and the scalars of a canonical signature stand |
| `Layouts.CanonicalSignaturesExactly` | code/scripts/gen_veil_vectors.py:384-406 | the signatures a reader returns: two to 1024 members, every scalar between zero and the order |

## Left out

- Cryptography: Keccak-256, Ed25519 signing and verification, curve arithmetic, point decompression and
  hash-to-point are uninterpreted; the group of the ring signature is the integers modulo its order.
- Digests of headers and transactions in the ordering layer and the ledger: a block carries its id, and
  transaction ids come from a function parameter; that the parameter is the digest of the encoding is only stated
  in `TxCodec` and `BlockCodec`.
- Heights, slots, timestamps, scores and output indices are unbounded in the ordering layer and the ledger; the
  u64 and u32 limits of these counters are not modelled there.
- Stores.Store.Refreshed: the walk and the rebuild work on value copies of the order and the positions, which
  `RefreshOrder` then assigns, so the push-by-push update of the two fields is not modelled.
- Engines.Engine.Boot: the genesis is a parameter with an empty payload instead of the frozen devnet constant.
- Engines.Engine.CheckAccounting: takes the references the mempool claims as a parameter, the mempool itself not
  being modelled; the periodic wallet check is not modelled.
- The counters of transfers, coinbases and mined blocks, the wallets, trackers and mempool of the engine, and the
  devnet script.
- Finality.NewRoster: duplicates are found by a predicate instead of a scan of a sorted copy.
- Base58.Digit: the alphabet is given by ranges of byte values instead of a lookup table.
- Transaction validation against the fee schedule, transaction signing and signature checks, the encoding of the
  stripping evidence, and the boolean codec.
- Proof-of-work mining and difficulty beyond the predicate that refuses insufficient work.
- The forge proposal machine and registry, Kleos scores, agents, Thymus, authority encodings, command line,
  status rendering and the float simulations: finite tables, one-step bounds or input and output.
