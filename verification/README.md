# Sinar Chain consensus core: a verified model

Dafny model of the Lachesis-style consensus of Sinar Chain and of the code that consumes its result: the event DAG and
its two ancestor searches, round and witness assignment, Clotho selection, Atropos finality with its read cache, block
packaging, the account and staking ledger, the initial token distribution and the transaction pool. `dafny verify
dfyconfig.toml` verifies all of it.

## How it is organised

The objects whose methods update their fields are classes (`Dag.DAG`, `Clotho.ClothoSelector`, `Finality.FinalityEngine`,
`Cache.CacheManager`, `Packaging.Blockchain`, `StateDb.StateDB`, `TxPool.TransactionPool`, `Events.Event`). Each method is
proved against a function on values (`DagSpec`, `FinalitySpec`, `LedgerSpec`, `Distribution`, `ChainSpec`), and the promised
properties are lemmas about those functions, so they hold for whole runs and not just for one call.

| file | contents |
|---|---|
| `Events.dfy` | events, ids, uint64 |
| `Graph.dfy`, `Ancestry.dfy` | reachability; the depth-first and the breadth-first search |
| `DagSpec.dfy`, `RoundTheory.dfy`, `RoundProperties.dfy` | what insertion does to a DAG; confluence; rounds, witnesses, heights |
| `InsertionOrder.dfy` | exactly which insertion orders agree |
| `Dag.dfy`, `Rounds.dfy` | the DAG, the round assignment and the witness scan as code |
| `Median.dfy`, `Sets.dfy`, `MapSum.dfy` | the median; counting; sums over maps |
| `Clotho.dfy` | Clotho selection |
| `FinalitySpec.dfy`, `Agreement.dfy` | finality without a cache, order independence, agreement of nodes |
| `Samples.dfy`, `FinalityLimits.dfy` | states that insertion and verdicts produce; the exact limits of the quorum rule |
| `Cache.dfy`, `FinalityCache.dfy`, `Finality.dfy` | the read cache and the engine on top of it |
| `StaleReads.dfy`, `FreshCalls.dfy` | what stale reads do, and exactly when a call is as good as one without a cache |
| `ChainSpec.dfy`, `Blockchain.dfy` | the chain and exactly-once packaging |
| `LedgerSpec.dfy`, `Distribution.dfy`, `StateDb.dfy` | balances, stakes, supply, initial distribution |
| `TxPool.dfy` | price sort and selection under a gas limit |

## Modelling decisions

- An event id stands for the cached hash of the event: distinct events have distinct ids, and none is the all-zero id.
  Here the model departs from the code: `Event.Hash` drops the error of encoding the header (src/event.go:85), and the header
  has a signed field, `TxCount` (src/event.go:24), which RLP does not encode, so as written an id depends on the transactions alone.
  A block hash is an injective digest of the block. Lamport values, times and gas are uint64; the two places where
  uint64 arithmetic can wrap (the sum of the two middle values of a median, the gas counter) wrap in the model too.
  Rounds and heights are unbounded: a height exceeds the largest parent height by one, and `HeightFollowsParents`
  shows Round < Height, so neither comes near 2^64.
- Go map iteration is an arbitrary order. Where the order can matter, the method returns the order it used as a ghost result.
- The ratio tests against 2.0/3.0 are `3 * part >= 2 * whole`, and `int(float64(n) * (2.0/3.0))` is `2 * n / 3`.
- Fame, the Clotho flags and the Clothos of a round are inputs. The selector reads the event's own fame flag, which is
  the branch of `isFamous` without a fame voting object.
- A legal run inserts events nobody has assigned a round to, parents first, and each creator's events in an order in
  which its Lamport values do not decrease. The code checks none of this. `ConfluenceExact` says exactly which other orders
  still end in the same state: parents come first and no event undercuts a recorded witness of its creator and round, which
  can be tested before each insertion. Monotone and gap-free rounds need only known parents.
- The finality engine works with any cache, stale or not: its contracts say what is read, and that while no entry is stale
  the result is the one without a cache.
- Signing, EVM execution and the clock are arbitrary: their verdicts are parameters and `AtroposTime` is any value.

## Where the code falls short of what its comments promise

- Insertion orders that break parents-first or undercut a witness leave nodes in different states
  (`ConfluenceExact`, with `MissingParentBreaksConfluence` and `LamportOrderMatters` as instances).
- `FinalizeEvents` depends on the iteration order of the round table unless no event is ready in two rounds; `OrderIndependence`
  proves that this condition is exact, `IterationOrderMatters` shows a state where it fails. With Clothos that are events of
  their own round, as the selector picks them, it holds (`OwnRoundSuffices`).
- With a single famous witness two rounds later the required count is 0, so that witness need not see the Clotho
  (`LoneWitnessDecidesNothing`). The required count is rounded down: passing against n famous witnesses means that two thirds
  of them see the event only if n is a multiple of 3 (`TwoThirdsExactly`), and two passing events are sure to share a voter
  only for n = 3 or n >= 5 (`QuorumsMeetExactly`). The states that show this are outcomes of legal insertions and verdicts.
- The finality cache is never invalidated, so a call can miss a ready Clotho. Every call finalises it exactly if it is also
  ready in what the cache shows at the start (`ReadyIsFinalisedExactly`, for all events `NothingIsMissedExactly`), which can be
  tested on the cache before the call; otherwise a call that comes to its round first misses it (`MissedWhenFirst`).
  `CallIsFreshExactly` is the same for the whole outcome, wrongly finalised events and consensus times included. Insertion
  changes nothing that is cached (`InsertionKeepsCacheSound`), listing a Clotho of a cached round does (`ListingMakesStale`).
  The first call caches even an empty list, so a Clotho listed later is missed (`LateClothoIsMissed`) until the entry is
  evicted or overwritten, which a read of the famous witnesses of the same round also does. `evictOldest` drops entries in
  map order, not the oldest ones.
- No code in the repository sets an event's fame or Clotho flag or lists a round's Clothos, so on a DAG built by insertion
  alone finalisation is idle (`WithoutVerdictsNothingIsFinal`). The finality results therefore take these as given.
- Fame voting never makes a witness famous: it records one vote per witness and round and needs three (`StartFameVoting`).
- The gas counter of the selection loop wraps at 2^64; `TakenIsLongestFit` gives the exact condition under which the loop
  takes the longest fitting prefix, and `WrapTakesTooMuch` a failing input. Likewise `MedianBetweenMiddles` for the median.
- Replacing or removing a validator loses what was delegated to it (`ReplacingValidatorLosesDelegations`), and a delegation
  invalidates the recorded supply (`DelegateBreaksSupply`).

## Model

| member | source | states |
|---|---|---|
| Ancestry.AncestorSearch.Dfs | src/dag.go:75-93 | the recursive search: success gives a parent path; failure leaves a visited set, shared with earlier branches, in which every newly visited event has all its parents visited and the target is absent; terminates on cyclic graphs |
| Ancestry.IsAncestorDfs | src/dag.go:68-96 | returns true exactly when a parent path through stored events leads from b to a, on every event map |
| Ancestry.IsAncestorBfs | src/poset.go:176-206 | the queue search decides the same relation as the depth-first one, on every event map |
| Graph.AncestryUnchanged | src/dag.go:68-96 | enlarging a graph with known parents changes no ancestry of an event already present |
| Dag.DAG.AddEvent | src/dag.go:26-37 | refuses exactly the stored ids; otherwise the whole new state is the specified insertion |
| Dag.DAG.GetParents | src/dag.go:53-66 | the stored parents in order, or an error exactly when one is missing |
| Dag.DAG.IsAncestor | src/dag.go:68-96 | decides ancestry among the DAG's events |
| Dag.DAG.CreateAndAddEvent | src/dag.go:98-121 | the created event has the given creator, parents and Lamport value, lies one above its highest stored parent, and is inserted unless its id is taken |
| Dag.DAG.MaxParentHeight | src/dag.go:102-110 | the largest height among the stored parents |
| Dag.DAG.AssignRound | src/dag.go:124-169 | whole new state for every case: missing parent, no parents, witness, non-witness, and an event that is not stored |
| Dag.UnstoredLikeStored | src/dag.go:124-169 | an event that is not stored gets the round, the mark and the table entries it would get if it were |
| Dag.DAG.AssignAboveParents | src/dag.go:140-168 | the case with parents: the round, the witness test, the tables |
| Dag.DAG.RoundAboveParents | src/dag.go:141-159 | one above the largest parent round if all parents are roots, and that round otherwise |
| Dag.DAG.MaxParentRound | src/dag.go:141-146 | the first loop computes the largest parent round |
| Dag.DAG.AllParentsAreRoot | src/dag.go:150-156 | the second loop decides whether all parents are roots |
| Dag.DAG.RegisterIfWitness | src/dag.go:161-168 | a witness becomes a root and enters both tables, anything else changes nothing |
| Dag.DAG.IsWitness | src/dag.go:172-184 | true exactly when no stored event of the creator and round has a smaller Lamport value |
| Dag.DAG.EnsureRound | src/dag.go:187-199 | adds an empty entry only if the round has none |
| RoundTheory.RunContent | src/dag.go:26-37 | a run stores exactly its events and alters only rounds and root marks |
| RoundTheory.TableExact | src/dag.go:124-169 | after every run, missing parents included, the round table lists exactly the events marked as roots, under their rounds |
| RoundTheory.RunSettles | src/dag.go:124-184 | the incremental assignment of a legal run solves equations that mention no insertion order |
| RoundTheory.SolutionsAgree | src/dag.go:124-184 | those equations have one solution for a given set of events |
| RoundTheory.Confluence | src/dag.go:26-37 | two nodes inserting the same events in different legal orders end in the same state: rounds, root marks and tables |
| RoundProperties.RoundFromParents | src/dag.go:140-159 | after any run with known parents: above roots only, an event lies exactly one round above its highest parent; above any non-root, exactly in the round of its highest parent |
| RoundProperties.RootMarkOfNewest | src/dag.go:161-184 | the event inserted last is a root exactly if it has no parents or no stored event of its creator and round has a smaller Lamport value |
| RoundProperties.RootMarkOfAny | src/dag.go:161-184 | in a legal run the same holds of every event, with all later insertions taken into account |
| RoundProperties.MissingParentWaits | src/dag.go:124-128 | an event with a missing parent is stored without a round and enters no table |
| RoundProperties.NextHeightIsLeast | src/dag.go:98-121 | the height of a new event is the least one above all stored parents, and 1 if there are none |
| RoundProperties.RoundMonotone | src/dag.go:140-159 | an ancestor never has a larger round than its descendant |
| RoundProperties.GapFree | src/dag.go:140-159 | an event of round r has an ancestor in every round up to r |
| RoundProperties.EventRoundHasRoot | src/dag.go:161-168 | every round with an event has a root |
| RoundProperties.TableCoversRounds | src/dag.go:161-199 | the table has an entry for exactly the rounds 0 to the maximum, none empty, witnesses and roots equal |
| RoundProperties.RoundZeroIsParentless | src/dag.go:130-159 | round 0 is exactly the events without parents |
| RoundProperties.ScanAgreesWithTable | src/fame_voting.go:243-276 | after a legal run a scan of all events finds exactly the recorded witnesses of every round |
| RoundProperties.OneWitnessPerCreator | src/dag.go:171-184 | a creator with events in a round above 0 has exactly one witness there, its event of least Lamport value |
| RoundProperties.InsertKeepsAncestry | src/dag.go:26-37 | an insertion changes no earlier event and no ancestry between earlier events |
| RoundProperties.HeightFollowsParents | src/dag.go:98-121 | events lie strictly above their parents, and Round < Height |
| RoundProperties.HeightIncreases | src/dag.go:98-121 | height strictly increases along ancestry |
| RoundProperties.AncestryIsPartialOrder | src/dag.go:68-121 | ancestry is reflexive, antisymmetric and transitive on the stored events |
| RoundProperties.ReassignIsIdle | src/round_assignment.go:16-61 | assigning a round again on the state of a legal run changes nothing |
| RoundProperties.ReassignKeepsEvents | src/round_assignment.go:16-61 | nor does it change an event of a legal run when the tables hold anything else |
| InsertionOrder.ConfluenceExact | src/dag.go:26-37 | a node that inserts the events of a legal run in any order ends in the same state if and only if parents come first and no insertion undercuts a recorded witness |
| InsertionOrder.SettledExactly | src/dag.go:124-184 | with known parents the outcome solves the order-free equations exactly if no insertion undercuts |
| InsertionOrder.WitnessIsRoot | src/dag.go:161-184 | what passes the witness test in the finished DAG was marked as a root when it was inserted |
| InsertionOrder.OrphanStaysInRoundZero | src/dag.go:124-128 | a run with a child before its parent leaves an event with parents in round 0 |
| InsertionOrder.MissingParentBreaksConfluence | src/dag.go:124-128 | an instance: with a child before its parent the final rounds differ |
| InsertionOrder.LamportOrderMatters | src/dag.go:172-184 | an instance: against the Lamport order of a creator an extra witness appears |
| Rounds.RoundAssignment.GetLatestRound | src/round_assignment.go:128-136 | the largest round of the table, which after a run with known parents is the largest round of any event |
| Rounds.RoundAssignment.AssignRoundsForEvents | src/round_assignment.go:139-143 | on the state of a legal run re-assigning any list of events changes no stored event, and nothing at all if all of them are stored |
| Rounds.FameVoting.GetWitnesses | src/fame_voting.go:243-253 | the scan, equal to the recorded table after a legal run |
| Rounds.FameVoting.IsWitness | src/fame_voting.go:256-276 | round 0, or no earlier event of the creator in the round |
| Rounds.FameVoting.StartFameVoting | src/fame_voting.go:57-83 | over every run of votes no witness becomes famous and no round is decided: one vote per witness and round is recorded, a decision needs three |
| Rounds.FameVoting.CalculateVote | src/fame_voting.go:106-138 | the vote on a witness of the round is always yes |
| Rounds.FameVoting.CheckConsensus | src/fame_voting.go:141-163 | at least three votes on the witness in the round and two thirds of them yes |
| Rounds.OneVotePerRound | src/fame_voting.go:86-96 | votes keyed by witness and round number at most one for each |
| Rounds.FameVoting.CanSee | src/fame_voting.go:166-192 | true exactly for an event of the same round, or one of the next round that descends from the other through any number of links |
| Median.MedianValue | src/finality.go:169-187 | the median as a function of the multiset of values, independent of their order, with the wrapping sum |
| Median.MedianIs | src/finality.go:169-187 | in any ordering of the values by size: the middle one, or half of the wrapping sum of the two middle ones, and 0 for no values |
| Median.SortedUnique | src/finality.go:174-179 | a multiset has only one sorted listing |
| Median.MedianBetweenMiddles | src/finality.go:181-186 | the median lies between the middle values exactly when their sum does not wrap |
| Median.MedianRobust | src/blockchain.go:114-132 | if more than half of the values lie in a range, so does the median |
| Clotho.ClothosShareDescendants | src/clotho.go:86-202 | two qualifying events of a round have at least a third of the next round's events, of which there are at least three, as common descendants, round 0 included |
| Clotho.SeersAre | src/clotho.go:240-266 | the events that see an event are, in the next round, its descendants, in its own round all events, elsewhere none |
| Clotho.GoodClothoIsWidelySeen | src/clotho.go:86-237 | the conditions hold in some order exactly for a famous event of the round of which two thirds of at least three next-round events descend, coming from two thirds of the creators |
| Clotho.SureClothoIsSurelySeen | src/clotho.go:86-237 | they hold in every order exactly if moreover all events of two thirds of the creators descend from it |
| Clotho.SelectionIsRight | src/clotho.go:42-84 | a selection between the two is sound and complete over the events considered |
| Clotho.SomeOrderPasses | src/clotho.go:205-237 | condition 5 passes in some iteration order exactly if the next round is non-empty and two thirds of its creators have an event that sees the witness |
| Clotho.EveryOrderPasses | src/clotho.go:205-237 | it passes in every order exactly if the next round is non-empty and for two thirds of its creators every event sees the witness |
| Clotho.AnswersBetween | src/clotho.go:212-228 | in any order the creators counted as seeing lie between those that surely and those that possibly see |
| Clotho.OneEventPerCreatorDecides | src/clotho.go:205-237 | the two conditions agree when each creator has one event in the next round |
| Clotho.ClothoSelector.SelectClothos | src/clotho.go:42-65 | selects once per round; everything selected has the descendants of two thirds of the next round, from two thirds of its creators, and shares descendants; every event considered all of whose next-round events of two thirds of the creators descend from it is selected: above round 0 the famous events, in round 0 the genesis events or else at most one event; fails exactly when the round has no famous event, or no event for round 0 |
| Clotho.ClothoSelector.SelectFromWitnesses | src/clotho.go:68-84 | the selected witnesses lie between the surely good and the possibly good ones |
| Clotho.ClothoSelector.IsClothoCandidate | src/clotho.go:87-114 | exactly the five conditions, the fifth for the order that was iterated |
| Clotho.ClothoSelector.CountRound | src/clotho.go:154-162 | the exact numbers of events in the round and of those that see the witness |
| Clotho.ClothoSelector.HasEventsInNextRound | src/clotho.go:127-146 | condition 2 with its exemption for round 0 |
| Clotho.ClothoSelector.HasConsensusInNextRound | src/clotho.go:149-177 | condition 3 with its exemption for round 0 |
| Clotho.ClothoSelector.HasProperVisibility | src/clotho.go:180-202 | condition 4, which has no exemption |
| Clotho.ClothoSelector.SatisfiesByzantineFaultTolerance | src/clotho.go:205-237 | passes exactly if, of the creators of the next round, two thirds have a first event in the iteration order that sees the witness |
| Clotho.ClothoSelector.AskCreators | src/clotho.go:212-228 | the exact numbers of creators and of those whose first event sees the witness |
| Clotho.ClothoSelector.CanSeeEvent | src/clotho.go:240-266 | same round, or one round above and a descendant through any number of links |
| Clotho.ClothoSelector.GetFamousWitnesses | src/clotho.go:269-299 | the famous events of the round; for round 0 the genesis events or at most one event |
| Cache.CacheManager.SetConsensusCache | src/consensus.go:113-123 | stores the entry, alters no other, evicts nothing below the capacity, and keeps the size bound for capacities of at least 5 |
| Cache.CacheManager.EvictOldest | src/consensus.go:154-201 | drops exactly a fifth of the capacity from the consensus entries when more are stored, and keeps the others |
| FinalitySpec.ApplyKeepsPasses | src/finality.go:95-126 | finalising events changes no other event's test and no consensus time |
| FinalitySpec.ApplyKeepsTables | src/finality.go:129-150 | nor any list of Clothos or famous witnesses |
| FinalitySpec.PassesMeans | src/finality.go:95-126 | an event passes for round r exactly if it is a famous Clotho and enough of the famous witnesses recorded for round r + 2, of which there are some, descend from it: with one more they would be more than two thirds |
| FinalitySpec.ValidatesMeans | src/finality.go:355-389 | it validates for round r by the same count, if it is finalised and was received in round r + 2 |
| FinalitySpec.ReadyMeans | src/finality.go:66-92 | an event is ready for a round exactly if it is listed as a Clotho of it, passes for it and is not finalised |
| FinalitySpec.FinalFields | src/finality.go:129-150 | an event that is first ready in round r of the order becomes its own Atropos, received in r + 2 at the median Lamport value of its voters |
| FinalitySpec.FinalFrame | src/finality.go:129-150 | all other events and tables stay, and the Atropos tables gain exactly the events finalised into their round |
| FinalitySpec.LamportsCount | src/finality.go:153-166 | a Lamport value is listed once for each voter that has it |
| FinalitySpec.ReadyRoundExists | src/finality.go:257-270 | ensureRound never adds a round during finalisation |
| FinalitySpec.FinalisedSet | src/finality.go:66-92 | the finalised events afterwards are the old ones and the ready ones, whatever the order |
| FinalitySpec.OrderIndependence | src/finality.go:66-77 | the result is the same for all iteration orders if and only if no event is ready in two rounds |
| FinalitySpec.OneClothoRoundSuffices | src/finality.go:66-92 | that condition holds if each event is a Clotho of at most one round |
| FinalitySpec.OwnRoundSuffices | src/clotho.go:68-84 | in particular if every Clotho listed for a round is an event of it |
| FinalitySpec.FinalizeIdempotent | src/finality.go:66-92 | a second call in any order changes nothing |
| FinalitySpec.NewlyFinalisedValidates | src/finality.go:355-389 | a newly finalised event validates for exactly the round it was finalised for |
| FinalitySpec.FinalisedShareVoters | src/finality.go:94-126 | two events passing against the same n famous witnesses share at least 2*floor(2n/3) - n voters, a positive number for n = 3 and n >= 5 |
| Samples.ForestPlaces | src/dag.go:124-184 | in a forest of events, one per creator, insertion gives each event its depth as its round and marks it as a root |
| Samples.Grow | src/dag.go:26-37 | what finality reads of such a forest after its insertion, with any verdicts |
| FinalityLimits.QuorumsMeetExactly | src/finality.go:123-125 | in all states that legal insertion and verdicts produce, any two events that pass against n famous witnesses have a common voter if and only if n = 3 or n >= 5 |
| FinalityLimits.TwoThirdsExactly | src/finality.go:123-125 | in all those states passing against n famous witnesses means that two thirds of them see the event if and only if n is a multiple of 3 |
| FinalityLimits.Splits | src/finality.go:95-126 | for any n and k insertion and verdicts produce a state in which two Clothos have k and n - k of the n famous witnesses as voters |
| FinalityLimits.IterationOrderMatters | src/finality.go:66-77 | insertion and verdicts produce a state with an event listed as a Clotho of two rounds and two iteration orders with different results |
| FinalitySpec.LoneWitnessDecidesNothing | src/finality.go:106-125 | with one famous witness the visibility test is empty |
| FinalitySpec.FinalTimeRobust | src/finality.go:153-187 | if more than half of the voters have Lamport values in a range, the consensus time lies in it, as long as the median does not wrap |
| FinalitySpec.SmallTimesRobust | src/finality.go:153-187 | in particular if all voters' Lamport values are below 2^63 |
| FinalityCache.CacheStaysSound | src/finality.go:190-255 | a sound cache stays sound if and only if the lists its entries hold stay as they are |
| FinalityCache.InsertionKeepsCacheSound | src/finality.go:190-255 | inserting an event without a fame flag keeps it sound |
| FinalityCache.InsertionKeepsStored | src/dag.go:26-37 | what the engine requires of tables and cache survives every insertion |
| FinalityCache.SeenLater | src/finality.go:190-255 | after further reads a list is seen as before or as it is, and as before if nothing can be evicted and its round was not read |
| FinalityCache.SoundTurnsAreActual | src/finality.go:66-92 | with a sound cache every turn of a call reads what is actual |
| StaleReads.ListingMakesStale | src/finality.go:190-220 | listing a new Clotho makes a sound cache stale if and only if the Clothos of its round are cached |
| FreshCalls.ReadyIsFinalisedExactly | src/finality.go:66-92 | a ready Clotho listed for one round is finalised by every call, whatever the iteration order and the evictions, if and only if it is also ready in what the cache shows at the start |
| FreshCalls.NothingIsMissedExactly | src/finality.go:66-92 | every call finalises every ready Clotho if and only if all of them are ready in what the cache shows |
| FreshCalls.MissedWhenFirst | src/finality.go:66-92 | one that is not is missed by every call that iterates its round first |
| FreshCalls.FinalisedExactly | src/finality.go:66-92 | an event, ready or not, is finalised by every call if and only if it is ready in whatever the turn for its round can read |
| FreshCalls.CallIsFreshExactly | src/finality.go:66-150 | every call ends as if there were no cache, consensus times included, if and only if nothing a turn can read makes a difference to any event |
| FreshCalls.TurnCanRead | src/finality.go:190-255 | a turn reads what the cache showed at the start, or the tables if its entry can be evicted or overwritten before |
| StaleReads.CachedListHidesClotho | src/finality.go:66-92 | a Clotho missing from the cached list of its only round is not finalised while nothing can be evicted and no earlier turn reads that round |
| StaleReads.ReadyButMissed | src/finality.go:190-220 | insertion and verdicts produce a state in which an event is ready and, with the empty list cached for its round, every call leaves it unfinalised |
| StaleReads.LateClothoIsMissed | src/finality.go:66-77 | over two calls on a fresh engine: a Clotho of round 0 or 1 listed between them is not finalised, although it can be ready |
| Finality.FinalityEngine.GetClothos | src/finality.go:190-220 | returns the cached Clothos of the round if they are cached, and otherwise lists those of the table, each once, and caches what it read, an empty list too |
| Finality.FinalityEngine.GetFamousWitnesses | src/finality.go:223-255 | the same for the famous witnesses; a second read returns the same |
| Finality.FinalityEngine.CanBecomeAtropos | src/finality.go:95-126 | the finality test against the witnesses as the cache shows them, the two-thirds count included; the actual test while no entry is stale |
| Finality.FinalityEngine.CollectVoters | src/finality.go:113-121 | counts exactly the listed witnesses that descend from the event and collects their Lamport values |
| Finality.FinalityEngine.FinalizeOne | src/finality.go:82-91 | finalises the event exactly if it is ready in this turn, and changes nothing otherwise |
| Finality.FinalityEngine.ConvertToAtropos | src/finality.go:129-150 | whole new state of a conversion: event fields and Atropos table |
| Finality.FinalityEngine.CalculateAtroposTime | src/finality.go:153-166 | the median Lamport value of the voters among the witnesses as the cache shows them |
| Finality.FinalityEngine.FinalizeClothosForRound | src/finality.go:80-92 | finalises exactly the ready, not yet finalised events of the list it is given |
| Finality.FinalityEngine.FinalizeEvents | src/finality.go:66-77 | with any cache, evictions included, the new state is the specified one for the order iterated and the lists read, each of them as cached at the start or as it is; while no entry is stale it is the cache-free specification and the cache stays sound |
| Finality.FinalityEngine.ValidateFinality | src/finality.go:355-389 | decides the validation test for any event object against the witnesses as the cache shows them; for a stored event the actual test while no entry is stale |
| Agreement.NodesAgreeOnFinality | src/finality.go:66-77 | nodes with the same events in different legal orders and the same verdicts, each event a Clotho of at most one round, finalise the same events with the same rounds and times |
| Agreement.NodesAgreeOnSelected | src/finality.go:66-77 | the same for Clothos that are events of their own round, as the selector picks them |
| Agreement.WithoutVerdictsNothingIsFinal | src/finality.go:66-92 | on the state any run of insertions leaves, finalisation changes nothing: insertion lists no Clothos |
| Packaging.Blockchain.constructor | src/blockchain.go:51-60 | an empty chain over a fresh ledger |
| Packaging.Blockchain.GetLatestBlockNumber | src/blockchain.go:256-268 | the length of the chain |
| Packaging.Blockchain.CreateBlock | src/blockchain.go:63-111 | succeeds exactly for a non-empty list that can be signed; number, parent, events, transactions and median time of the block |
| Packaging.EventIdsAre | src/blockchain.go:68-75 | the events of a block are the ids of the given events in their order |
| Packaging.TransactionsAre | src/blockchain.go:68-75 | its transactions are those of the events, one event after the other |
| Packaging.Blockchain.AddBlock | src/blockchain.go:186-220 | appends exactly the successor blocks the EVM accepts and settles their transactions; otherwise changes nothing |
| Packaging.Blockchain.UpdateStateDB | src/blockchain.go:223-229 | the ledger after all transactions of the block in order |
| ChainSpec.SettleConcat | src/blockchain.go:223-229 | settling two lists is settling the first and then the second |
| ChainSpec.SettleOne | src/blockchain.go:232-254 | a transaction with a known sender who can afford value and gas takes exactly that from the sender and gives exactly the value to the recipient, if there is one, itself included; any other moves nothing |
| Packaging.Blockchain.IsEventInBlock | src/blockchain.go:345-357 | decides whether some block of the chain holds the event |
| Packaging.Blockchain.GetBlockRange | src/blockchain.go:373-390 | the contiguous piece of the chain with numbers in the range, in order |
| Packaging.Blockchain.CollectUnpackaged | src/blockchain.go:291-300 | lists each finalised event that is in no block once |
| Packaging.GroupAtroposEventsByTime | src/blockchain.go:323-343 | a partition: the groups hold exactly the given events, and two events share a group exactly when they share a window |
| Packaging.Blockchain.PackGroups | src/blockchain.go:309-318 | packs exactly the groups before the first whose block cannot be signed or executed, one block each |
| Packaging.Blockchain.ProcessAtroposEvents | src/blockchain.go:290-321 | the chain grows by one block for each time window before the first failing one, the windows partition the unpackaged finalised events, no event is ever in the chain twice even if a block fails midway, and after success every finalised event is in it |
| ChainSpec.EventsAreInOneBlock | src/blockchain.go:290-321 | without repeats an event is in one block and occurs once in it |
| ChainSpec.LinkedNumbers | src/blockchain.go:186-198 | block i has number i + 1 and names its predecessor as parent |
| ChainSpec.RangeIsAscending | src/blockchain.go:373-390 | the piece of the chain is ascending and has exactly the blocks with numbers in the range |
| ChainSpec.SettleCreatesNothing | src/blockchain.go:223-254 | transactions of a block never overdraw an account nor enlarge the sum of all balances |
| LedgerSpec.StepWealth | src/state.go:409-545 | the exact change of balances plus delegations for every operation |
| LedgerSpec.OnlyPartiesChange | src/state.go:477-545 | no operation touches a third account, and a refused one touches none |
| LedgerSpec.AddValidatorMeans | src/state.go:409-438 | accepted exactly from a stake of a million; the validator starts with nothing delegated |
| LedgerSpec.RemoveValidatorMeans | src/state.go:441-453 | drops that validator and nothing else |
| LedgerSpec.DelegateMeans | src/state.go:477-513 | accepted exactly for an active validator and a sufficient balance; moves the amount from the balance to the delegator's entry and TotalStake |
| LedgerSpec.UndelegateMeans | src/state.go:516-545 | accepted exactly for an entry of at least the amount; moves it back and drops an entry that becomes empty |
| LedgerSpec.TransferMeans | src/state.go:814-832 | accepted exactly if the sender holds the amount; the new balance of every account, and the supply recomputed; refused, it moves nothing |
| LedgerSpec.MintMeans | src/state.go:835-851 | accepted exactly within the cap of a billion tokens; adds the amount to balance and supply |
| LedgerSpec.TransactMeans | src/blockchain.go:232-254 | accepted exactly if the sender holds value and gas; the new balance of every account; refused, it moves nothing |
| LedgerSpec.TransferBalances | src/state.go:814-832 | a transfer moves the amount, and a self-transfer nothing |
| LedgerSpec.WealthConserved | src/state.go:477-545 | over every run of delegations, undelegations and transfers balances plus delegations stay the same |
| LedgerSpec.ReplacingValidatorLosesDelegations | src/state.go:409-453 | removing or replacing a validator conserves them exactly when nothing is delegated to it in total |
| LedgerSpec.StakesAlwaysAddUp | src/state.go:409-545 | over every run TotalStake is the own stake plus all delegations |
| LedgerSpec.SupplyAlwaysSound | src/state.go:814-851 | over every run of transfers and mints the supply is the sum of the balances and at most the total supply |
| LedgerSpec.DelegateBreaksSupply | src/state.go:494-494 | a delegation keeps the supply equation exactly when it is refused or moves nothing |
| LedgerSpec.NeverOverdrawn | src/state.go:477-545 | with non-negative amounts no balance or delegation becomes negative over any run |
| LedgerSpec.UndelegateUndoesDelegate | src/state.go:516-545 | undelegating restores the ledger exactly when the delegator had no entry of amount 0 |
| StateDb.StateDB.GetBalance | src/state.go:282-306 | reads a balance and creates a missing account |
| StateDb.StateDB.SetSINARBalance | src/state.go:805-811 | sets a balance and recomputes the supply |
| StateDb.StateDB.CalculateTotalSINARSupply | src/state.go:885-894 | the sum of all balances, in any iteration order |
| StateDb.StateDB.AddValidator | src/state.go:409-438 | whole new ledger and verdict |
| StateDb.StateDB.RemoveValidator | src/state.go:441-453 | whole new ledger |
| StateDb.StateDB.Delegate | src/state.go:477-513 | whole new ledger; succeeds exactly for an active validator and a sufficient balance; the account created by a refused call included |
| StateDb.StateDB.Undelegate | src/state.go:516-545 | whole new ledger; succeeds exactly for an entry of at least the amount; an emptied entry removed |
| StateDb.StateDB.TransferSINAR | src/state.go:814-832 | whole new ledger; succeeds exactly if the sender holds the amount, its whole balance included |
| StateDb.StateDB.MintSINAR | src/state.go:835-851 | whole new ledger; succeeds exactly within the cap |
| StateDb.StateDB.ProcessTransaction | src/blockchain.go:232-254 | the sender pays value and gas exactly if it holds both, and the recipient gets the value |
| StateDb.StateDB.DistributeToWallets | src/state.go:958-981 | the balances after every wallet has been set to its share |
| StateDb.StateDB.InitializeSINARDistribution | src/state.go:907-955 | each listed wallet holds its share and no other balance changes; the supply becomes the total supply plus what unlisted accounts hold, so from a fresh state exactly the total supply |
| Distribution.SharesAddUp | src/state.go:963-973 | equal shares plus the remainder for the last wallet add up to the amount |
| Distribution.PaySum | src/state.go:958-981 | for pairwise distinct wallets a category holds exactly its amount, and other balances are untouched |
| Distribution.PayBalance | src/state.go:958-981 | every wallet of a category ends up with an equal share, the last one with the remainder on top |
| Distribution.PayAllBalance | src/state.go:931-951 | so does every wallet of every category, later payments included |
| Distribution.DistributionSum | src/state.go:931-951 | the same for any list of separate categories |
| Distribution.PlansSeparated | src/state.go:56-108 | no wallet of the shipped lists is listed twice |
| Distribution.ShippedCategories | src/state.go:56-108 | the wallets and amounts of the six categories, each one by its value |
| Distribution.InitialDistributionSum | src/state.go:907-951 | the shipped percentages and lists distribute exactly the total supply |
| Distribution.DistributionIsRight | src/state.go:907-981 | each shipped wallet holds its share of its category's amount, and no other balance changes |
| TxPool.FittingIsLongest | src/txpool.go:72-82 | the reference count is the longest prefix within the limit |
| TxPool.TakenIsLongestFit | src/txpool.go:72-82 | the loop takes that prefix if and only if the first transaction that does not fit does not wrap the counter |
| TxPool.TakenStops | src/txpool.go:72-82 | the loop stops at the first transaction that takes the wrapping counter beyond the limit |
| TxPool.WrapTakesTooMuch | src/txpool.go:73-75 | a concrete pool for which it takes too much |
| TxPool.ExchangeSort | src/txpool.go:94-101 | sorts in place: descending prices and a permutation |
| TxPool.BringDearest | src/txpool.go:96-100 | the inner loop puts the dearest remaining transaction into its place |
| TxPool.PrefixPartitions | src/txpool.go:72-82 | selected and remaining transactions partition the pool |
| TxPool.PrefixIsDearest | src/txpool.go:69-82 | no remaining transaction pays more than a selected one |
| TxPool.TransactionPool.AddTransaction | src/txpool.go:28-47 | adds exactly the unknown hashes |
| TxPool.TransactionPool.RemoveTransaction | src/txpool.go:107-113 | removes the hash from both maps |
| TxPool.TransactionPool.SortTransactionsByGasPrice | src/txpool.go:88-104 | each pending transaction once, dearest first |
| TxPool.TransactionPool.GetTransactionsForBlock | src/txpool.go:62-85 | the selected prefix of the price order, removed from pending |

## Left out

- Locks, channels, tickers and goroutines: each public method is one atomic step; several methods take a lock their caller already holds.
- Hashing, RLP encoding and signatures: ids and block hashes are abstract and injective.
- The branch of `ClothoSelector.isFamous` that asks the fame voting: no witness ever becomes famous there (`StartFameVoting`), so fame is an input.
- The error and lock behaviour of `decideRound`, which takes a lock its caller holds but is never reached.
- `Poset.AddEvent`, `updateRoundAssignment`, `isRoot` and `Heads`: a second, simpler round assignment by Lamport windows; only its ancestor search is modelled. The consensus engine builds its DAG over the maps of its Poset (src/consensus.go:317-321), so this second assignment writes witnesses and roots into the same round table (src/poset.go:105-132). `TableExact` and `ScanAgreesWithTable` hold for a DAG filled through `DAG.AddEvent`, not for that one.
- `ConsensusEngine.runRoundAssignment`: assigns rounds to events that are stored already, in map order (src/consensus.go:651-661). There a child handled before its parent sees the parent in round 0 and can become a root of round 0 for good.
- Round tables are sets of event ids inside a map of records, account and validator records are values in maps: sharing of those records through Go references is not captured. Events are objects.
- `RoundAssignment.AssignRound` repeats `DAG.AssignRound` line for line; the model has it once.
- `sort.Slice` stands for insertion into a sorted list.
- ConvertToAtropos: computes the median before it sets the event's fields; the source sets two fields first, which no read in between observes.
- Cache.CacheManager.EvictOldest: models the consensus entries only, not the event, vote and state entries that the same call drops, nor the hit counters, because nothing in finality reads them.
- StateDb.StateDB.AddValidator: the validator flag and stake of the account and the stakes map are not in the ledger, because no modelled operation reads them.
- StateDb.StateDB.RemoveValidator: leaves out the same flag and map.
- StateDb.StateDB.Delegate: leaves out the secondary delegations map, which is overwritten and never reduced.
- `BurnSINAR`: it reduces the supply it has just recomputed.
- Account nonces, code, storage, contracts, proposals, votes, and rewards.
- Block creation time, state root, gas used and base fee; `ConsensusEngine.createBlock`, which re-reads all finalised events on every tick.
- The queued half of the transaction pool beyond the duplicate test, statistics getters, networking, the API server and the EVM wrapper.
