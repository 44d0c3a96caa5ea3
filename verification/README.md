# A verified model of the detection platform's hard cores

These modules model the parts of the repository where a mistake would be quiet: the arithmetic
behind its published claim, the protocols that move tables and take backups, the caches that
must not change an answer, and the searches of its capacity plan. Each module states what the
Rust code does, branch by branch, and proves what the code is for.

| module | models |
|---|---|
| `Wilson`, `Bootstrap`, `Claim` | the false-positive claim: score bound and its search, block bootstrap, verdict |
| `Matching`, `Scoring` | greedy one-to-one matching of alerts to labels, per-block tallies |
| `Tables`, `Swap` | the staged-table swap as steps over a store, with writers, deaths and races |
| `Migrator` | schema migrations with crashes between any two statements |
| `Ddl` | the capacity plan's replay of migrations, against the swap it foretells |
| `BoundedMap` | the bounded FIFO map with its lazily cleaned queue |
| `Abi`, `Decode` | block decoding and assembly |
| `Enricher`, `CacheHistory` | the cached, concurrent reads of a block's facts, and what the caches do to a history of blocks |
| `Arbitrage` | the closed-cycle test over saturating tallies |
| `Stream`, `Manifest` | chunked row streaming into an order-independent digest, and the restore diff |
| `Scheduler` | the backup heartbeat as a timed machine |
| `Calendar`, `Artifacts` | civil stamps, the artifact store, scratch-database names |
| `Timeline`, `Plan`, `Key` | the capacity walk, the table searches, partition keys |
| `Identity` | the anomaly detector's wiring and identity bytes |
| `Common`, `Sequences`, `Text` | shared vocabulary |

Where the code updates state in place the model does too: `BoundedFifoMap`, the two `Client`s,
`ContentAccumulator`, `ArtifactStore`, `Scratch`, `Server`, `JobSlot`, `Agent`, `Enricher`, `Rng` and
`Hasher` are classes, and each loop is a method proved against a specification function whose
meaning the lemmas beside it state. What the code leaves to its surroundings is a parameter:
the square root and the exponential (known by sign, bound and being a root), the row, block and
identity hashes, the node a block is read from, what detectors emit,
the clock, and which of several concurrent steps happens next.

Some promises hold only under a condition, and the condition is stated exactly:

- Greedy matching catches the most for every replay exactly when each slot lists its pinned
  labels before its unpinned ones (`Scoring.CatchesTheMostIff`), and the order of the labels is
  irrelevant exactly when no slot has both (`Scoring.OrderIsIrrelevantIff`). Half of the most is
  always caught.
- Any number of pods of one pass each keep every row exactly up to two pods
  (`Swap.SinglePassesAreSafeIff`); once pods may die and boot again, exactly up to one
  (`Swap.RestartsAreSafeIff`). A death between EXCHANGE and RENAME makes the next boot swap back
  exactly when the new table is still empty (`Swap.TornExchange`).
- The replayed EXCHANGE follows the store exactly when both tables exist or neither does, and the
  suffix rule foretells the swap exactly when every staged table has a live one.
- The bounded map is first-in first-out throughout a run exactly when no put of a new key finds a
  live key behind a stale entry of its own (`BoundedMap.RunRefinesFifoIff`). Its queue stays
  within the capacity exactly when no new key is put, with room in the map, behind a queue that
  is already that long (`BoundedMap.QueueStaysWithinIff`).
- Some execution of a history of blocks returns wrong facts exactly when a block contradicts an
  answer that may have been remembered before it (`CacheHistory.CanMisreadIff`); a token read
  before its code appeared, after a block past that, does (`CacheHistory.EarlierBlockSeesLaterCode`).
- The answer of the closed-cycle test is the one over the true sums exactly when no 256-bit cap is
  in its way (`Arbitrage.AnswerIsTrueIff`).
- The search for clean alerts answers exactly when the last number it can bracket clears
  (`Wilson.CleanAlertsNeeded`); its comments do not say that a sum may overflow.
- The bootstrap's index is never clamped exactly for quantiles over a half.
- A scratch name reads back exactly when its prefix neither contains `_drill_` nor ends in `_drill`.
- A reverted migration is applied again by a later run exactly when both statements of the revert
  went through (`Migrator.RevertedIsReappliedIff`).

One comment in the code says more than it does. The closed-cycle test is described as finding a
loop that starts and ends in the profit token; the loop it guarantees need not pass through that
token (`Arbitrage.ProfitOutsideTheCycles`), but does when no token is spent twice
(`Arbitrage.ProfitIsOnACycle`). That condition is sufficient only: a token spent twice may still
lie on a loop, and whether it does is a question about the whole graph.

## Model

| member | source | states |
|---|---|---|
| `Wilson.UpperUnderIff` | `crates/backtest/src/claim.rs:134-148` | The Wilson upper bound is under a target exactly when the refutations lie below `n * target` by more than `z` standard deviations: no square root, for all counts and targets strictly between 0 and 1 |
| `Wilson.LowerOverIff` | `crates/backtest/src/claim.rs:185-188` | The lower bound contradicts a target exactly when the refutations lie that far above it, and never with no trials |
| `Wilson.ClearsForGood` | `crates/backtest/src/claim.rs:165-171` | Once enough clean alerts bring the bound under the target, any greater number does |
| `Wilson.EventuallyClears` | `crates/backtest/src/claim.rs:165-171` | Some number of clean alerts always does |
| `Wilson.Threshold` | `crates/backtest/src/claim.rs:158-182` | There is a least number of clean alerts that clears, and it and every greater number clear |
| `Wilson.OneThreshold` | `crates/backtest/src/claim.rs:158-182` | That number is unique |
| `Wilson.CleanAlertsNeeded` | `crates/backtest/src/claim.rs:158-182` | The bracket-and-bisect search returns that least number; in `u64` arithmetic it answers exactly when the refutations are already far below the target at `n + Reach(n)` alerts, `Reach(n)` being the last doubling of one whose sum with `n` fits; without alerts at all it gets stuck instead, and else a sum overflows |
| `Wilson.SearchOverflows` | `crates/backtest/src/claim.rs:158-182` | An input on which the first sum of the search overflows: as many alerts as can be counted, all refuted |
| `Wilson.SearchIsStuckIff` | `crates/backtest/src/claim.rs:158-182` | With no alerts the bracket reaches the greatest `u64`, and gets stuck there exactly for targets too small for it |
| `Wilson.SixtyFiveCleanAlerts` | `crates/backtest/src/claim.rs:21-24` | With no refutations the committed target takes exactly 65 adjudicated alerts, as the documentation says |
| `Wilson.NeverBoth` | `crates/backtest/src/claim.rs:241-320` | No evidence both clears and contradicts a target |
| `Bootstrap.StatesRepeatIff` | `crates/backtest/src/bootstrap.rs:96-100` | SplitMix64 is back at a state exactly after going through all 2^64 of them |
| `Bootstrap.Rng.Below` | `crates/backtest/src/bootstrap.rs:96-108` | A draw steps the generator once and scales the mixed word |
| `Bootstrap.Scale` | `crates/backtest/src/bootstrap.rs:106-108` | A scaled word lies in `0..bound` |
| `Bootstrap.PicksFillTheWindow` | `crates/backtest/src/bootstrap.rs:64-77` | A replicate takes exactly as many blocks from a window as it has, every one of them in range |
| `Bootstrap.PicksAreRuns` | `crates/backtest/src/bootstrap.rs:68-76` | Within a run the blocks taken are consecutive |
| `Bootstrap.WindowTallyIsPicked` | `crates/backtest/src/bootstrap.rs:62-78` | What a window contributes is the sum over exactly those blocks |
| `Bootstrap.ResampleWindow` | `crates/backtest/src/bootstrap.rs:64-77` | The filling loop contributes that sum and leaves the generator where the next window starts |
| `Bootstrap.Resample` | `crates/backtest/src/bootstrap.rs:60-78` | One replicate adds up every window in turn |
| `Bootstrap.Rate` | `crates/backtest/src/bootstrap.rs:79-82` | A replicate has a rate exactly when it has a verdict, and the rate lies in `[0, 1]` |
| `Bootstrap.UpperBound` | `crates/backtest/src/bootstrap.rs:47-88` | The replicate loop collects the rates of all replicates and reads the bound from them; no windows or no replicates give none |
| `Bootstrap.BoundIsNearestRank` | `crates/backtest/src/bootstrap.rs:83-92` | For a quantile in `(1/2, 1]` the bound is the nearest-rank element of all replicates' rates, those without a verdict counted as zero, no index clamped, within `[0, 1]`; it is absent exactly when too many are without a verdict |
| `Bootstrap.NearestRankIsUnique` | `crates/backtest/src/bootstrap.rs:89-92` | There is only one value of that rank |
| `Bootstrap.NeverClampsIff` | `crates/backtest/src/bootstrap.rs:83-92` | Over all numbers of replicates the allowance for undefined ones stays below the rank exactly for quantiles over a half |
| `Bootstrap.LongRunsBoundAtPooledRate` | `crates/backtest/src/bootstrap.rs:47-88` | When runs are as long as the windows the bound is the pooled rate itself |
| `Bootstrap.CleanEvidenceBoundsAtZero` | `crates/backtest/src/bootstrap.rs:47-88` | Evidence without a refutation is never bounded above zero |
| `Bootstrap.EmptyWindowsAddNothing` | `crates/backtest/src/bootstrap.rs:48-50` | Dropping empty windows drops no verdict |
| `Matching.GreedyIsUnique` | `crates/backtest/src/scoring.rs:221-224` | First free alert for each label in order: there is only one such assignment |
| `Matching.GreedyIsHalfOfBest` | `crates/backtest/src/scoring.rs:158-176` | Greedy serves at least half as many labels as any one-to-one matching, whatever fits what |
| `Matching.GreedyIsBest` | `crates/backtest/src/scoring.rs:158-176` | On nested labels greedy serves as many as any matching |
| `Matching.ClassCount` | `crates/backtest/src/scoring.rs:158-176` | Of a class of labels with its own alerts greedy serves as many as there are labels or alerts |
| `Scoring.CollectFindings` | `crates/backtest/src/scoring.rs:119-140` | Each alert of a block takes the transactions of the last trigger since the alert before it |
| `Scoring.ReplayAll` | `crates/backtest/src/scoring.rs:117-141` | The findings of a replay, block after block |
| `Scoring.TakeMatch` | `crates/backtest/src/scoring.rs:221-224` | The first match is removed and returned; nothing changes when there is none |
| `Scoring.MatchExpected` | `crates/backtest/src/scoring.rs:155-162` | The first pass catches exactly the labels that take an alert |
| `Scoring.MatchRefuted` | `crates/backtest/src/scoring.rs:164-171` | The second pass turns the alerts refuted labels take into known false positives and counts the cleared ones |
| `Scoring.PassIsGreedy` | `crates/backtest/src/scoring.rs:155-171` | A pass over the shrinking list is the greedy assignment by position, and what is left is what it did not use |
| `Scoring.MissedMatchesNothingLeft` | `crates/backtest/src/scoring.rs:155-162` | No missed label matches an alert that is left over |
| `Scoring.CatchesHalfOfBest` | `crates/backtest/src/scoring.rs:155-162` | At least half as many labels are caught as any one-to-one matching could catch |
| `Scoring.CatchesTheMost` | `crates/backtest/src/scoring.rs:43-58` | With the pinned labels of each slot first, as many are caught as any matching could catch |
| `Scoring.CatchesTheMostIff` | `crates/backtest/src/scoring.rs:155-224` | A label list catches the most whatever alerts are raised exactly when no unpinned label precedes a pinned one of its block, detector and kind |
| `Scoring.CaughtPerKey` | `crates/backtest/src/scoring.rs:155-224` | When the labels of a slot all pin transactions or none does, of each kind of label as many are caught as there are labels or alerts of it |
| `Scoring.OrderOfLabelsIsIrrelevant` | `crates/backtest/src/scoring.rs:155-224` | Then listing the labels in another order catches as many of each kind |
| `Scoring.OrderIsIrrelevantIff` | `crates/backtest/src/scoring.rs:155-224` | Over all alerts and all orders of a label list, as many labels are caught in one order as in another exactly when the labels of each slot all pin transactions or none does |
| `Scoring.OrderCanMatter` | `crates/backtest/src/scoring.rs:43-58` | An instance: the same two labels catch one alert or two |
| `Scoring.TallyBlocks` | `crates/backtest/src/scoring.rs:183-199` | Each block's tally counts the caught and unexpected alerts at its position |
| `Scoring.RunFixture` | `crates/backtest/src/scoring.rs:111-217` | The outcome of a fixture: its alerts collected block by block, confirmed labels matched first, then refuted ones; leftovers are false positives only in a closed world |
| `Scoring.NothingIsDropped` | `crates/backtest/src/scoring.rs:155-181` | Every alert ends up caught, unexpected or unadjudicated, and every label caught or missed, exactly once |
| `Scoring.TalliesSumToVerdicts` | `crates/backtest/src/scoring.rs:183-199` | The per-block tallies sum to the caught and the unexpected of the fixture |
| `Claim.Aggregate` | `crates/backtest/src/scoring.rs:353-375` | Per detector, the counts are how often it is named by each kind of verdict |
| `Claim.Pool` | `crates/backtest/src/claim.rs:258-267` | The pooled counts are the sizes of those lists, in whatever order detectors are added |
| `Claim.Evaluate` | `crates/backtest/src/claim.rs:241-320` | The verdict says what the replays' evidence says: contradicted, supported, or what is missing, with the least number of further clean alerts |
| `Claim.SupportedIff` | `crates/backtest/src/claim.rs:280-307` | Supported, in closed form: counts far below the target, enough windows, the clustered bound clear, nobody blamed |
| `Claim.AuthoredChangeNothing` | `crates/backtest/src/claim.rs:243-252` | Any number of authored fixtures, anywhere in a report, leave the replays and so the verdict unchanged |
| `Claim.BothBoundsRestOnTheSameTotals` | `crates/backtest/src/claim.rs:257-277` | Over the results of any corpus of fixtures, the pooled Wilson bound and the bootstrap rest on the same confirmed and refuted totals |
| `Swap.Client.ReadFacts` | `crates/ch-migrate/src/swap.rs:134-153` | A table's key and row count, or nothing |
| `Swap.Client.Observe` | `crates/ch-migrate/src/swap.rs:156-160` | Two reads decide what the pass does next |
| `Swap.Client.ExchangeTables` | `crates/ch-migrate/src/swap.rs:202-224` | EXCHANGE then RENAME, refused while a retired table exists |
| `Swap.Client.DropRetiredIfEmpty` | `crates/ch-migrate/src/swap.rs:227-242` | A retired table goes only when it holds nothing |
| `Swap.Client.SwapIfSafe` | `crates/ch-migrate/src/swap.rs:164-195` | An undisturbed pass leaves the store and the outcome the step machine reaches |
| `Swap.BootOutcome` | `crates/ch-migrate/src/swap.rs:85-195` | That outcome and store, case by case |
| `Swap.StepConserves` | `crates/ch-migrate/src/swap.rs:164-257` | A statement whose drop is safe keeps every row |
| `Swap.LiveNameStays` | `crates/ch-migrate/src/swap.rs:164-257` | No statement unnames a live table |
| `Swap.TornExchange` | `crates/ch-migrate/src/swap.rs:202-224` | After a death between EXCHANGE and RENAME the next boot keeps the new definition exactly when the new table holds rows, and otherwise swaps back |
| `Swap.OnePodNeverDropsARow` | `crates/ch-migrate/src/swap.rs:84-242` | Over every history of one pod dying and rebooting at any statement, among writers and staging migrations, no row is lost and a live name that resolves keeps resolving |
| `Swap.TwoPodsNeverDropARow` | `crates/ch-migrate/src/swap.rs:84-242` | Nor do two racing pods of one pass each, either of which may die anywhere, lose a row |
| `Swap.SinglePassesAreSafeIff` | `crates/ch-migrate/src/swap.rs:84-242` | Over every store, every number of pods of one pass each and every interleaving with writers and deaths, no row is lost and a live name keeps resolving, exactly up to two pods |
| `Swap.RestartsAreSafeIff` | `crates/ch-migrate/src/swap.rs:84-242` | When pods may die and boot again the same holds exactly up to one pod |
| `Swap.ThreePodsDropARow` | `crates/ch-migrate/src/swap.rs:84-242` | A history of three single passes without a death in which a row is lost |
| `Swap.RestartBesideAnotherPodDropsARow` | `crates/ch-migrate/src/swap.rs:84-242` | A history of two pods, one of which dies between EXCHANGE and RENAME and boots again, in which a row is lost |
| `Migrator.Validate` | `crates/ch-migrate/src/lib.rs:209-252` | Exactly the well-formed sets validate |
| `Migrator.WellFormedIsDistinct` | `crates/ch-migrate/src/lib.rs:209-252` | A set that validates lists no version twice |
| `Migrator.Client.Run` | `crates/ch-migrate/src/lib.rs:77-113` | A run cut short after any number of statements leaves the specified database, and says what it applied |
| `Migrator.Client.RevertLast` | `crates/ch-migrate/src/lib.rs:118-150` | So does a revert |
| `Migrator.AlwaysAPrefix` | `crates/ch-migrate/src/lib.rs:77-150` | From a recorded prefix, every history of runs, reverts and crashes keeps a prefix of the list recorded |
| `Migrator.RunOnPrefix` | `crates/ch-migrate/src/lib.rs:77-113` | A run extends the recorded prefix, with at most one migration applied and unrecorded |
| `Migrator.RevertShrinks` | `crates/ch-migrate/src/lib.rs:118-150` | A revert takes one version off the prefix, and only when both its statements went through |
| `Migrator.InterruptedRunsConverge` | `crates/ch-migrate/src/lib.rs:77-113` | With idempotent migrations, any number of cut runs and then a completed one reach the crash-free schema, and a further run applies nothing |
| `Migrator.RunAfterRevert` | `crates/ch-migrate/src/lib.rs:77-150` | For every validated set and every nonempty recorded prefix, the schema a finished run leaves after a revert cut anywhere: the reverted version's `up` is applied again only if both statements of the revert went through |
| `Migrator.RevertedIsReappliedIff` | `crates/ch-migrate/src/lib.rs:77-150` | A later run that finishes applies the reverted version again exactly when the revert got to its end |
| `Migrator.TornRevertIsNotRepaired` | `crates/ch-migrate/src/lib.rs:118-150` | An instance with one migration that sets a flag: the flag stays down and the version recorded |
| `Ddl.Execute` | `crates/capacity/src/ddl.rs:92-171` | One statement, as the replay loop carries it out |
| `Ddl.SettleInPlace` | `crates/capacity/src/ddl.rs:173-187` | The suffix rule over the map, staged names in ascending order; no suffixed name is left |
| `Ddl.Replay` | `crates/capacity/src/ddl.rs:90-189` | Replaying a crate's migrations, with every key equal to its definition's name |
| `Ddl.StatementKeepsNames` | `crates/capacity/src/ddl.rs:92-171` | No statement breaks that equality |
| `Ddl.SuffixRuleForetellsSwap` | `crates/capacity/src/ddl.rs:173-187` | The suffix rule gives the tables of the EXCHANGE, RENAME and DROP the swap issues exactly when every staged table has a live one |
| `Ddl.ReplayFollowsRename` | `crates/capacity/src/ddl.rs:141-150` | Renames in the replay follow those of the store |
| `Ddl.ReplayFollowsExchange` | `crates/capacity/src/ddl.rs:151-160` | The replayed EXCHANGE follows the store's exactly when both tables exist or neither does |
| `Ddl.PlanForetellsBoots` | `crates/capacity/src/ddl.rs:173-187` | When the boots of all staged tables complete, one after another, the suffix rule describes every table they leave but retired ones; each staged name has one suffix and none stages a retired table |
| `BoundedMap.BoundedFifoMap.constructor` | `crates/bounded-map/src/lib.rs:41-48` | A new map is empty and within its capacity |
| `BoundedMap.BoundedFifoMap.Put` | `crates/bounded-map/src/lib.rs:52-58` | Insert or overwrite, evicting first for a new key; the whole new state |
| `BoundedMap.BoundedFifoMap.Edit` | `crates/bounded-map/src/lib.rs:67-69` | Overwriting in place leaves the queue alone |
| `BoundedMap.BoundedFifoMap.Take` | `crates/bounded-map/src/lib.rs:72-74` | Taking removes the entry and leaves its queue entry stale |
| `BoundedMap.BoundedFifoMap.EvictToFit` | `crates/bounded-map/src/lib.rs:86-108` | The popping loop ends with the specified entries and queue |
| `BoundedMap.EvictsOne` | `crates/bounded-map/src/lib.rs:86-108` | A full map loses exactly its first live queued key, and a map with room loses nothing |
| `BoundedMap.RunKeepsInv` | `crates/bounded-map/src/lib.rs:52-108` | Over every sequence of operations the map stays within its capacity with every live key queued |
| `BoundedMap.EvictionIsFifo` | `crates/bounded-map/src/lib.rs:86-108` | An eviction takes the oldest key exactly when the first live queued key is the oldest |
| `BoundedMap.FirstLivePut` | `crates/bounded-map/src/lib.rs:52-58` | A put places its key last in eviction order exactly when no live key stands behind a stale entry of it |
| `BoundedMap.PutRefinesIff` | `crates/bounded-map/src/lib.rs:52-58` | After a put of a new key the map is the plain insertion-ordered one exactly when, room made, no live key stands behind a stale entry of that key |
| `BoundedMap.RunRefinesFifoIff` | `crates/bounded-map/src/lib.rs:52-108` | Over every run the map is the plain insertion-ordered one after each operation exactly when every such put finds it so |
| `BoundedMap.StalePutBreaksFifo` | `crates/bounded-map/src/lib.rs:52-108` | A key taken and put again can be evicted before an older one |
| `BoundedMap.QueueIsUnbounded` | `crates/bounded-map/src/lib.rs:52-108` | The queue of an empty map can be as long as one likes |
| `BoundedMap.QueueStaysWithinIff` | `crates/bounded-map/src/lib.rs:52-108` | Over every run the queue stays within the capacity exactly when no new key is put while the map has room and the queue is already that long |
| `BoundedMap.WithoutTakesQueueIsTidy` | `crates/bounded-map/src/lib.rs:52-108` | While nothing is taken the queue holds each live key once and nothing else, so it is as long as the map |
| `Decode.ResolveIff` | `crates/chain-enrich/src/decode.rs:107-126` | A swap log resolves exactly when one side went in and the other came out, and keeps its amounts |
| `Decode.FindNeeds` | `crates/chain-enrich/src/decode.rs:152-162` | The needs are exactly the emitters of transfer and swap logs of successful receipts |
| `Decode.SwapLogsPartition` | `crates/chain-enrich/src/decode.rs:238-257` | Every swap log is a swap, unverified or ambiguous, and only one of them |
| `Decode.ReadLogs` | `crates/chain-enrich/src/decode.rs:238-257` | One receipt's loop yields its transfers, its swaps and the two counts of refused logs |
| `Decode.PairOffIff` | `crates/chain-enrich/src/decode.rs:213-235` | Counts, distinct hashes and a receipt for each transaction pair all receipts off, by pigeonhole |
| `Decode.Assemble` | `crates/chain-enrich/src/decode.rs:206-291` | The assembly of a block, or the first thing wrong with it |
| `Decode.AssemblesIff` | `crates/chain-enrich/src/decode.rs:206-291` | Assembling succeeds exactly when receipts and transactions pair off by hash, each transaction then getting its own receipt; an error names something really wrong |
| `Decode.AssembledBlock` | `crates/chain-enrich/src/decode.rs:206-291` | Of an assembled block every swap log is counted exactly once and every token and pool met is one the needs name |
| `Enricher.FanOut` | `crates/chain-enrich/src/enricher.rs:305-346` | Concurrent cached reads in any interleaving, any of which may fail, with any number of entries put from elsewhere between two steps: the cache and the answers are those the step machine reaches |
| `Enricher.Ask` | `crates/chain-enrich/src/enricher.rs:305-323` | So do uncached reads in any completion order |
| `Enricher.CollectPools` | `crates/chain-enrich/src/enricher.rs:237-246` | The fold of the pool identities into facts and counters |
| `Enricher.PoolsFolded` | `crates/chain-enrich/src/enricher.rs:237-246` | In whatever order results come, that fold is the map of verified pools, the tokens touched and the number of unverified pools |
| `Enricher.StatesFolded` | `crates/chain-enrich/src/enricher.rs:248-264` | Likewise the reserves before the block |
| `Enricher.MetasFolded` | `crates/chain-enrich/src/enricher.rs:266-277` | Likewise the token metadata |
| `Enricher.PricesFolded` | `crates/chain-enrich/src/enricher.rs:279-299` | Likewise the prices, stale and invalid answers apart |
| `Enricher.Enricher.ReadFacts` | `crates/chain-enrich/src/enricher.rs:221-301` | One block's facts and report out of the two caches: caches and result are those of an enrichment whose every step is accounted for |
| `Enricher.Enricher.ReadHistory` | `crates/chain-enrich/src/enricher.rs:221-301` | The blocks of a history one after another, each finding the caches the one before it left |
| `CacheHistory.BlockIsRight` | `crates/chain-enrich/src/enricher.rs:221-301` | Whatever the caches hold, as long as nothing that may be remembered contradicts the block's own answers: the facts and report are the uncached ones, in every interleaving, and the caches hold no more than may be remembered |
| `CacheHistory.CanMisreadIff` | `crates/chain-enrich/src/enricher.rs:325-411` | Some execution of a history returns for some block other than its uncached facts and report exactly when a block contradicts an answer that an earlier one, or an enrichment elsewhere, may leave in a cache |
| `CacheHistory.CanMisreadInOrderIff` | `crates/chain-enrich/src/enricher.rs:325-411` | With nothing put from elsewhere: exactly when one block may remember an answer that a later one contradicts |
| `CacheHistory.CanMisreadConcurrentlyIff` | `crates/chain-enrich/src/enricher.rs:325-411` | Beside enrichments of the same blocks: exactly when any two blocks disagree on an answer one of them may remember |
| `CacheHistory.EarlierBlockSeesLaterCode` | `crates/chain-enrich/src/enricher.rs:385-411` | A history of two blocks, the later one read first, that gives the earlier block the metadata of a token whose code it predates |
| `Arbitrage.Tally` | `crates/arb-detector/src/lib.rs:190-199` | The tallies are, token by token, the sums of what was received and spent, capped at 256 bits |
| `Arbitrage.ClosedCycleProfit` | `crates/arb-detector/src/lib.rs:233-261` | In any order of tokens the answer names a token and gain exactly when that token alone nets positive, was also spent, and every other nets zero |
| `Arbitrage.DetectCycle` | `crates/arb-detector/src/lib.rs:181-201` | The same over a transaction's swaps; fewer than two give none |
| `Arbitrage.SwapOrderIsIrrelevant` | `crates/arb-detector/src/lib.rs:190-199` | The sums do not depend on the order of the swaps |
| `Arbitrage.NamedProfitIsTrueIff` | `crates/arb-detector/src/lib.rs:181-261` | A profit the capped tallies name is the profit over the true sums exactly when its receipts fit 256 bits and no token has both sums at the cap and different |
| `Arbitrage.TrueProfitIsNamedIff` | `crates/arb-detector/src/lib.rs:181-261` | A profit over the true sums is the one named exactly when its receipts fit 256 bits |
| `Arbitrage.AnswerIsTrueIff` | `crates/arb-detector/src/lib.rs:181-261` | So an answer, gain included, is the true one exactly when no cap is in its way |
| `Arbitrage.SaturationHidesALoss` | `crates/arb-detector/src/lib.rs:190-199` | Four swaps of distinct tokens with positive amounts whose capped tallies report a profit although another token was lost |
| `Arbitrage.ProfitMeansCycle` | `crates/arb-detector/src/lib.rs:228-233` | When a profit is reported and every swap bought something, the swaps contain a simple directed cycle of tokens |
| `Arbitrage.ProfitIsOnACycle` | `crates/arb-detector/src/lib.rs:228-233` | When every amount is positive and no two swaps spend the same token, a simple cycle passes through the profit token |
| `Arbitrage.ProfitOutsideTheCycles` | `crates/arb-detector/src/lib.rs:228-232` | Otherwise it need not: a family of swaps none of whose closed walks does |
| `Stream.ContentAccumulator.constructor` | `crates/backup/src/manifest.rs:444-446` | A new accumulator has absorbed nothing |
| `Stream.ContentAccumulator.AbsorbRow` | `crates/backup/src/manifest.rs:449-458` | Absorbing a row counts it and adds its hash, wrapping |
| `Stream.TakeLines` | `crates/backup/src/clickhouse.rs:345-351` | Draining the pending bytes absorbs every non-empty whole line and leaves the fragment |
| `Stream.StreamRows` | `crates/backup/src/clickhouse.rs:305-368` | For every split into chunks it succeeds exactly when all arrived and nothing follows the last newline, and then absorbed exactly the non-empty rows of the bytes, which it wrote out |
| `Stream.NoFragmentIff` | `crates/backup/src/clickhouse.rs:354-362` | Nothing follows the last newline exactly when the bytes are empty or end in one |
| `Stream.RenderReadsBack` | `crates/backup/src/clickhouse.rs:333-351` | Rows written one a line read back as they were |
| `Manifest.Finish` | `crates/backup/src/manifest.rs:464-475` | The fingerprint of what was absorbed |
| `Manifest.HexIsInjective` | `crates/backup/src/manifest.rs:464-466` | The printed digest tells any two sums apart |
| `Manifest.RowOrderIsIrrelevant` | `crates/backup/src/manifest.rs:437-476` | Rows in another order have the same fingerprint |
| `Manifest.SameFingerprintIff` | `crates/backup/src/manifest.rs:437-476` | Fingerprints are equal exactly when counts and wrapped hash sums are |
| `Manifest.OneChangedRowIsSeen` | `crates/backup/src/manifest.rs:437-476` | One row replaced by one that hashes differently always changes the fingerprint |
| `Manifest.Diff` | `crates/backup/src/manifest.rs:298-331` | Missing, unexpected and changed tables, each changed one once and with both sides |
| `Manifest.CleanIff` | `crates/backup/src/manifest.rs:382-384` | A diff is clean exactly when the restore has the same tables with the same counts and digests |
| `Manifest.FaithfulRestoreIsClean` | `crates/backup/src/manifest.rs:298-331` | A restore with the same rows of every table, in any order, is clean |
| `Scheduler.Agent.FindDue` | `crates/backup/src/main.rs:366-377` | The targets without an artifact, with one at least a cadence old, or with an unreadable store |
| `Scheduler.Agent.Heartbeat` | `crates/backup/src/main.rs:446-495` | A beat starts one cycle for what is due unless one is unfinished |
| `Scheduler.ArtifactsStayFresh` | `crates/backup/src/main.rs:320-377` | Over every run with beats at most `H` apart and cycles done within `D`, one cycle at most is in flight and no artifact reaches the age cadence + H + 2D |
| `Scheduler.FreshFromBoot` | `crates/backup/src/main.rs:446-508` | So from a boot over an empty store on |
| `Scheduler.BoundIsReached` | `crates/backup/src/main.rs:446-508` | In whole seconds the bound cannot be lowered for any cadence, beat or cycle: a run that reaches it less one |
| `Calendar.EarlierIsFewerSeconds` | `crates/backup/src/artifact.rs:98-99` | Civil order is the order of the seconds, which determine the time |
| `Calendar.StampsSortAsTimes` | `crates/backup/src/artifact.rs:98-99` | Fixed-width stamps sort as their times and differ for different times |
| `Calendar.StampReadsBack` | `crates/backup/src/target.rs:244-249` | A fourteen-digit stamp reads back to its time |
| `Artifacts.IdsSortAsStarts` | `crates/backup/src/artifact.rs:95-99` | Artifact ids of one target sort as the seconds their snapshots started in |
| `Artifacts.ArtifactStore.Stage` | `crates/backup/src/artifact.rs:98-116` | A directory is reserved, or refused when two snapshots share a second |
| `Artifacts.ArtifactStore.Snapshot` | `crates/backup/src/artifact.rs:98-130` | The manifest is written last: a snapshot that fails anywhere leaves the complete artifacts as they were |
| `Artifacts.LaterSnapshotIsNewest` | `crates/backup/src/artifact.rs:95-130` | A snapshot that started after all others of its target becomes the newest |
| `Artifacts.ArtifactStore.List` | `crates/backup/src/artifact.rs:133-180` | Every complete artifact once, in id order, whatever order the directory is read in |
| `Artifacts.ArtifactStore.Newest` | `crates/backup/src/artifact.rs:183-185` | The complete artifact with the last id |
| `Artifacts.ArtifactStore.Prune` | `crates/backup/src/artifact.rs:202-219` | Exactly the complete artifacts older than `keep` and not the newest go; a failed removal only keeps more |
| `Artifacts.PruneKeepsTheNewest` | `crates/backup/src/artifact.rs:198-201` | What was newest before a prune is newest after it |
| `Artifacts.NewScratch` | `crates/backup/src/target.rs:232-239` | A scratch name is refused exactly when it is no bare identifier |
| `Artifacts.Server.Drill` | `crates/backup/src/drill.rs:238-282` | A drill leaves behind exactly a database that was to be kept, or one that is not accounted for because dropping it failed; never one that was there before |
| `Artifacts.Server.SweepScratch` | `crates/backup/src/postgres.rs:492-519` | A finished sweep leaves no database past the cutoff, and no sweep takes another |
| `Artifacts.NamesReadBackIff` | `crates/backup/src/target.rs:244-250` | Generated names read back to their creation second, for every second, exactly for prefixes that neither contain the infix nor run into it |
| `Artifacts.SweptIffOlder` | `crates/backup/src/target.rs:253-255` | Under such a prefix a database is swept exactly when its creation second is past the cutoff |
| `Artifacts.OnlyScratchIsSwept` | `crates/backup/src/target.rs:241-250` | Nothing is swept without the infix and a readable stamp after it |
| `Timeline.WindowSlides` | `crates/capacity/src/timeline.rs:76-81` | Adding today and taking off the day that leaves keeps the sum of the last `window` days |
| `Timeline.ShardsAreFewest` | `crates/capacity/src/timeline.rs:99-101` | The shard count is the least, at least one, that holds the local volume |
| `Timeline.EndOfYear` | `crates/capacity/src/timeline.rs:91-119` | A year's line: what is held, its cold part, the fewest shards, the nodes and the broker volume |
| `Timeline.Walk` | `crates/capacity/src/timeline.rs:57-128` | Every year's line, and the first days on which the deployed store and broker volumes are full |
| `Plan.CountGrows` | `crates/capacity/src/key.rs:116-156` | More days held never means fewer partitions |
| `Plan.FindLimitDays` | `crates/capacity/src/plan.rs:213-227` | The first days within the horizon on which each limit is passed, early exit or not |
| `Plan.FindBeyond` | `crates/capacity/src/plan.rs:229-243` | For a table without retention, the first day up to a hundred years |
| `Plan.WidestWindow` | `crates/capacity/src/plan.rs:252-260` | The widest window up to 36500 days whose restore fits one insert block: it and every narrower one fit, no wider one does |
| `Plan.PlanTable` | `crates/capacity/src/plan.rs:183-273` | The limits and the widest window of a table, less the key's expiry lag |
| `Key.SplitTopLevel` | `crates/capacity/src/key.rs:190-207` | The parts between top-level commas |
| `Key.JoinedPartsSplit` | `crates/capacity/src/key.rs:190-207` | A list of balanced parts without a top-level comma splits back into them |
| `Key.PartsJoin` | `crates/capacity/src/key.rs:190-207` | Joining the parts of any expression gives it back |
| `Key.StripOuterParens` | `crates/capacity/src/key.rs:168-188` | The outer pair comes off exactly when it encloses everything |
| `Key.WrappedStripsIff` | `crates/capacity/src/key.rs:168-188` | Parentheses put around something come off again exactly when it never closes what it did not open |
| `Identity.FieldReadsBack` | `crates/anomaly-detector/src/lib.rs:394-397` | A length-prefixed field at the front of a stream can be told from what follows |
| `Identity.FramesReadBack` | `crates/anomaly-detector/src/lib.rs:394-397` | A stream of fields has one reading |
| `Identity.New` | `crates/anomaly-detector/src/lib.rs:161-181` | Wiring succeeds exactly with a valid config, some models and one a role; the models end up sorted; each error names its cause |
| `Identity.IdentityDigest` | `crates/anomaly-detector/src/lib.rs:374-392` | The digest is taken over the domain, the config and each model's role and hashes, framed |
| `Identity.SameIdentityIff` | `crates/anomaly-detector/src/lib.rs:374-392` | Two wired detectors feed the hasher the same bytes exactly when they have the same config bytes and the same set of role, descriptor hash and baseline hash |
| `Identity.ListingOrderIsIrrelevant` | `crates/anomaly-detector/src/lib.rs:168-179` | Listing the models in another order wires the same identity |

## Left out

- Floating point: rates, bounds, volumes and quantiles are reals, so rounding is not modelled.
- SQL text, HTTP, Kafka, subprocesses, metrics, logging and command-line output: stores and nodes are abstract states with steps.
- Detector execution: what a detector emits on a block is an input of the scoring model, and hit rates are not modelled.
- `Wilson.CleanAlertsNeeded`: an overflowing sum ends the search with its own result, where a build would panic or wrap.
- `Bootstrap.UpperBound`: proved for any generator, and used by the claim with `SplitMix64`; that its words are well mixed is not stated. Tallies are unbounded naturals.
- `Claim.Evaluate`: the blamed detectors are a set, so their order in the report is not modelled; nor are printing and the count of excluded fixtures.
- `Swap.SwapIfSafe`: a table holds its rows as a multiset; merges, replicas and the text of a definition other than its key are not modelled.
- `Migrator.Client.Run`: bookkeeping is a list of versions, and two migrators running at once are not modelled.
- `Ddl.Replay`: starts from parsed statements; comment stripping, clause extraction and retention parsing are left out.
- `BoundedMap`: `retain_values` edits values only and is left out.
- `CacheHistory.CanMisreadIff`: reads of a fan-out start in any order and any number may be in flight, where the code starts them in key order up to its concurrency limit; with a small cache and limit a wrong execution may be out of the code's reach.
- `Enricher.Enricher.ReadFacts`: connection checks are left out; how a symbol is decoded and a price scaled are parameters.
- `Decode.Assemble`: block and receipt hashes are numbers, and event signatures are constants.
- `Arbitrage.ProfitIsOnACycle`: sufficient and not necessary, as said above.
- `Arbitrage.DetectCycle`: pricing the profit and the confidence score are threshold arithmetic and left out.
- `Stream.StreamRows`: errors of the writer are left out; a row count is an unbounded natural.
- `Scheduler.ArtifactsStayFresh`: assumes what a deployment must provide, that beats are at most `H` apart and cycles succeed within `D`; the drill slot, whose pacing on attempts of any outcome is one guard of a beat, is left out, as is draining at shutdown.
- `Artifacts.ArtifactStore.List`: damaged manifests are not modelled apart from missing ones.
- `Calendar.StampReadsBack`: the library's leniency about signs and spaces in stamps is not modelled; only fourteen digits are read.
- `Timeline.Walk`: prices, and the conversion of shard counts to 32 bits, are left out.
- `Plan.PlanTable`: insert rates, scenarios and sensitivity are single expressions and left out.
- `Key.SplitTopLevel`: recognising each component by name is a lookup and left out.
- Hashing: SHA-256 and keccak are uninterpreted functions, and nothing is claimed about collisions.
- `Identity.New`: validating a config's thresholds and a model's schema against its baseline is a flag.
