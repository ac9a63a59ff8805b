# Header-chain verification

Dafny proofs about the parts of the node that decide which chain it believes: the ceiling
on claimed Rootstock work, the Bitcoin fork tree, the Rootstock header forest and its uncle
rule, the compressed merged-mining coinbase, and the wire formats that carry headers and
snapshot chunks.

`dafny verify dfyconfig.toml` checks everything. The modules follow the source:

| Modules | Source | What they hold |
|---|---|---|
| `U256`, `Quotient`, `Bytes`, `Pairing`, `Wrappers` | | 256-bit saturating and wrapping arithmetic, floor division, big-endian numbers, pairs as numbers |
| `Retarget`, `WorkBound`, `UncleAllowance`, `WorkCeiling`, `CeilingLimits` | `rsk-consensus/src/checkpoint.rs`, `validation/difficulty.rs` | the retarget rule as a step relation; the bound on the work of every chain it admits, and where it stops being one |
| `ForkStore`, `ForkSpec`, `ForkCore` | `core/src/btc.rs`, `core/src/store/btc.rs` | the tables, what each operation does to them, and the operations as a class with a working copy per transaction |
| `ForkInvariant`, `ForkGrowth`, `ForkSeeding`, `ForkRuns`, `ForkFinality` | the same | the invariant of every reachable store, and safety over runs of calls |
| `ForkDisplacement`, `ForkWitness` | the same | the exact condition on a call that replaces a finalized header, and a reachable store with such a call |
| `ForkChecks`, `ForkOutcome`, `ForkRecords` | the same | what a call accepts, refuses and answers, in terms of the headers and the stored chain alone |
| `ForkChains`, `WorkLadder`, `CheckpointExport`, `TailWork`, `ForkMetaCodec` | the same | the canonical check, median time, the checkpoint ladder, the tail work, the fork record |
| `BlockRules`, `ChainDifficulty` | `core/src/rsk.rs`, `validation/` | when a block is accepted and why not, and that accepted difficulties are a chain of the retarget rule |
| `UncleRule`, `Forest`, `CountedOnce`, `TrunkWork`, `ForestRuns`, `UncleReturns`, `WeightOnce`, `ForestWitness` | `validation/uncles.rs`, `core/src/rsk.rs`, `core/src/store/rsk.rs` | the windowed uncle rule, GHOST weight, the global statement the local rule implies, over runs in which any uncle list may be proposed |
| `Coinbase` | `validation/merged_mining.rs` | producer and verifier of the compressed coinbase |
| `Rlp`, `RlpItems`, `HeaderCodec`, `HeaderHashes`, `HeaderForm` | `types/header.rs`, `rlp_compat.rs` | header encoding, decoding, the hashes of both, and what they commit to |
| `FrameHeader`, `FrameStream`, `FrameExchange`, `FrameAuth`, `FrameCodec` | `rlpx/frame.rs` | frames as a stream, the exchange theorem, authentication, the codec object |
| `Snap` | `protocol/snap.rs` | chunk messages |

Operations that change state are methods proved against a function of the old state; the
theorems are about those functions and about runs of them. Hashes, the SHA-256 block
function, the stream cipher, the MAC digest, the retarget computation and the work of a
target are parameters of the model. Where a proof needs more of them than that they are
functions, the assumption is a named predicate: `ForkInvariant.Sound` (block hashes do not
collide, heights rise by one along parent links, every target carries work),
`Forest.NoCollision` (Rootstock headers with one hash have the same number, parent,
difficulty, uncle commitment and uncle count; the hash leaves out other fields),
`Forest.Binding` (nor do uncle commitments collide), `CountedOnce.Acyclic` and
`TrunkWork.Nested` (neither parent links nor commitments form cycles),
`FrameStream.Involutive` (applying the keystream twice gives the byte back). They can be
met: `ForkWitness.PlainIsUnit` and `ForestWitness.PlainIsConsensus` give rules and hashes
that do. `ForkSeeding.Genuine` says that the seeded headers have the heights they are seeded
at and that these are period boundaries; the code takes both on faith.

## Where the code is narrower than its comments

Each of these is proved, with the exact condition where one exists.

- **Finality.** The floor is compared only with the forkpoint of a fork being created. A
  fork that was there before the floor passed it can still be extended, and a fork opened
  off it above the floor is let through too. From a store whose canonical chain is the root's
  up to the floor, a call changes a canonical header there if and only if it is accepted,
  follows a block of a fork that left the root at or below the floor, and outweighs the best
  fork (`ForkDisplacement.DisplacesExactly`; over runs, `FinalityOfRuns`). Such a store and
  call are reached from a seeded genesis block (`ForkWitness.ForkUnderFloor`,
  `FinalizedIsReplaced`). While every live fork left the root above the floor there is no
  such call (`NothingToDisplace`), so nothing changes in a run where no floor move passes a
  live fork's departure (`ForkFinality.FinalizedNeverChanges`).
- **Canonical check.** It accepts, besides the best chain, blocks of ancestor forks above
  the point where the best chain left them (`ForkChains.CanonicalCheckExact`);
  `ForkWitness.FinalizedIsReplaced` ends in a store with one.
- **Tail work.** It covers the blocks `(start, start + 2016]`, one later than documented;
  the two agree exactly when the boundary blocks at both ends are equally hard
  (`TailWork.TailWorkExact`).
- **Fork record.** `tip_work` is read back from eight bytes before where it was written
  (`ForkMetaCodec.TipWorkSurvivesWhen`); fork choice reads the rows instead
  (`ForkInvariant.TipIsStored`).
- **Work ceiling.** It needs a divisor of at least two, no ten-minute reset, no wrap of
  256 bits, and scaled products that fit (`WorkBound.DivisorOneIsUnbounded`,
  `ResetBreaksTheBound`, `WrapBreaksTheBound`, `CeilingLimits.SaturatedScaleRefusesTheTruth`).
  Without samples a true chain is always judged Plausible if and only if eleven times the
  tail's bound is at most MAX / 1000 or the checkpoint's work is that close to MAX
  (`CeilingLimits.PlausibleExactly`, for checkpoints whose steepest chain stays in 256 bits).
- **Mean allowance.** The comment asks only that the allowance bound the population mean.
  The ceiling then loses what its divisions drop, `bound * allowance % 1000` thousandths a
  gap (`WorkCeiling.CeilingIsSoundOnAverage`). If they drop less than one unit together it
  covers every chain within the mean; on samples whose bounds a true chain attains, it does
  so if and only if they drop that little or the sum saturates (`CeilingLimits.MeanIsCovered`,
  `AverageExactly`). On a thousand samples of difficulty one they drop 308, and an honest
  chain is judged Impossible (`AverageNeedsTheSlack`).
- **Parent already stored.** A Rootstock block without uncles is accepted without its parent
  (`CountedOnce.OrphanAccepted`). A block weighs in its parent's subtree if and only if it was
  put, or put again, while the parent was stored (`ForestRuns.WeighedUnderParent`); a batch
  that goes through in the wrong order leaves it out (`OrphanIsNotWeighed`).
- **Proposed roots.** `propose_checkpoint` stores whatever uncle list it is given, over the
  one stored for the block if there is one. Proposing a stored block again with less work
  lowers its weight (`ForestWitness.RootProposedAgain`); a step of a run lowers no weight if
  and only if it puts no stored block with less work than it has
  (`ForestRuns.StepKeepsWeights`). Dropping an uncle from a stored list lets the next blocks
  include it again, and even the block itself can be connected with it once more
  (`UncleReturns.UncleComesBack`, `ReturnsExactly`). A root's own uncles are not judged: the
  same uncle twice counts twice (`ForestWitness.UncleCountedTwice`), and a list its header
  does not commit to may name a block that then comes on top of it (`UncleOnTop`). So a chain
  counts every header once if and only if its root's list is distinct and shares no hash with
  the rest, and no block of it included an uncle that one below it had included and whose
  list no longer named it (`TrunkWork.CountedExactly`). A caller rules the last out by never
  dropping a name from a stored list (`KeepingRunRemembers`), and the sharing by proposing
  only committed lists (`CountedAtMostOnce`).
- **Uncles that are stored.** The uncle rule looks along one chain. A header stored as a block
  and included as an uncle by a block beside it counts twice in the GHOST weight above both
  (`WeightOnce.StoredUncleIsNamedTwice`); a weight counts every header of its subtree once if
  and only if none is named twice there (`WeightCounts`).
- **Trust threshold.** Both products wrap at 256 bits (`Forest.ThresholdExact`,
  `ThresholdExactForTail`).
- **Header codec.** Encoding drops extension data, and a header whose mining fields are
  partly present reads back differently (`HeaderCodec.DecodeOfEncode`, `RoundTripExact`).
- **Frames.** Content of 2^24 bytes or more is announced modulo 2^24
  (`FrameExchange.WholeFrameExact`). A decoder call that yields nothing may leave a whole
  message in the buffer (`NothingIsNotDrained`), so a caller that waits for more bytes then
  delays it.

## Model

| member | source | states |
|---|---|---|
| `Retarget.RuleExactly` | crates/rsk-consensus/src/validation/difficulty.rs:53-113 | the expected difficulty in every case: the ten-minute reset before orchid, the parent's for a block dated before it, and otherwise the rise, the fall or the parent's as the time since the parent is under, over or equal to the duration limit times one plus the uncle count, the product taken in 64 bits and the rise in 256 |
| `Retarget.LaterIsNoHarder` | crates/rsk-consensus/src/validation/difficulty.rs:53-113 | after orchid and without wrap, a later timestamp never raises the difficulty and more uncles never lower it |
| `Retarget.RuleTakesSteps` | crates/rsk-consensus/src/validation/difficulty.rs:53-113 | after orchid the expected difficulty is always the parent's, or that moved by the quotient and clamped, as long as the rise does not wrap |
| `Retarget.StepsAreReachable` | crates/rsk-consensus/src/validation/difficulty.rs:53-113 | every such step is one some timestamp produces, so the step relation is the rule and not an over-approximation |
| `WorkBound.LiftIsCheckedProduct` | crates/rsk-consensus/src/checkpoint.rs:188-197 | the backward cap is `next * divisor / (divisor - 1)` when the product fits in 256 bits and the largest value otherwise |
| `WorkBound.MaxWorkBetween` | crates/rsk-consensus/src/checkpoint.rs:159-213 | the two loops (caps backwards into an array, then the greedy walk) compute the recursive bound the lemmas below are about |
| `WorkBound.WorkIsBounded` | crates/rsk-consensus/src/checkpoint.rs:148-213 | no chain of difficulties the retarget rule admits from `from`, ending at or below `to`, sums to more than the bound, through floors, clamp and saturation |
| `WorkBound.SamplingNeverLoosens` | crates/rsk-consensus/src/checkpoint.rs:188-212 | splitting an interval at a block of an admissible chain never gives a larger bound |
| `WorkBound.RisingIsChain` | crates/rsk-consensus/src/checkpoint.rs:171-181 | the chain that rises by the whole quotient at every block is admissible |
| `WorkBound.TailBoundIsAttained` | crates/rsk-consensus/src/checkpoint.rs:451-463 | past the last sample the bound equals the work of that admissible chain: it cannot be lowered |
| `WorkBound.LiftIsInverse` | crates/rsk-consensus/src/checkpoint.rs:188-197 | `next * divisor / (divisor - 1)` is the highest difficulty whose whole fall arrives at or below `next` |
| `WorkBound.FallBoundIsAttained` | crates/rsk-consensus/src/checkpoint.rs:159-213 | from the highest difficulty that can reach `to`, the bound equals the work of the chain that falls there by the whole quotient at every block: with a later sample too it cannot be lowered |
| `WorkBound.DivisorOneIsUnbounded` | crates/rsk-consensus/src/checkpoint.rs:166-168 | with a divisor below two the function returns 0 and is no bound: a concrete chain exceeds it |
| `WorkBound.ResetBreaksTheBound` | crates/rsk-consensus/src/validation/difficulty.rs:58-65 | the ten-minute reset before orchid is outside the bound: concrete headers exceed it |
| `WorkBound.WrapBreaksTheBound` | crates/rsk-consensus/src/validation/difficulty.rs:99-112 | so is a rise that wraps 256 bits |
| `UncleAllowance.Isqrt` | crates/rsk-consensus/src/checkpoint.rs:354-398 | the integer square root is the largest number whose square is not above its argument |
| `UncleAllowance.AllowanceRange` | crates/rsk-consensus/src/checkpoint.rs:354-398 | with counts of at most ten the allowance lies between 1000 plus the floored mean and 11000, and is exactly 11000 below two samples |
| `UncleAllowance.AllowanceTerms` | crates/rsk-consensus/src/checkpoint.rs:354-398 | from two samples on the allowance is 1000 plus the mean count, the root of twice the unbiased variance times 21.821 over the number of samples, and three times ten counts times 21.821 over it, all in thousandths and rounded down, capped at 11000 |
| `UncleAllowance.DeviationsExpand` | crates/rsk-consensus/src/checkpoint.rs:375-382 | the squared deviations are those of the counts from the mean |
| `UncleAllowance.AllowanceIgnoresOrder` | crates/rsk-consensus/src/checkpoint.rs:354-398 | it does not depend on the order of the samples |
| `UncleAllowance.RepeatingNeverRaises` | crates/rsk-consensus/src/checkpoint.rs:354-398 | repeating the whole list any number of times never raises it: variance term and range term both shrink |
| `WorkCeiling.CeilingFor` | crates/rsk-consensus/src/checkpoint.rs:421-464 | the loop over the samples and the tail computes the folded gaps |
| `WorkCeiling.GapsCoverEachHeightOnce` | crates/rsk-consensus/src/checkpoint.rs:431-463 | the gaps used cover every height above the checkpoint up to the last covered one exactly once and no other, whatever the order of the samples |
| `WorkCeiling.CeilingIsSound` | crates/rsk-consensus/src/checkpoint.rs:421-464 | for every chain the rule admits through the samples, whose work with uncles stays within the allowance in each gap and whose scaled products fit, checkpoint plus work is at most the ceiling |
| `WorkCeiling.CeilingIsSoundOnAverage` | crates/rsk-consensus/src/checkpoint.rs:309-319 | if the allowance bounds only the mean over the whole stretch, the ceiling holds up to what the gaps' divisions drop: the sum of `bound * allowance % 1000` over the gaps, in thousandths |
| `WorkCeiling.Judge` | crates/rsk-consensus/src/checkpoint.rs:467-481 | the verdict compares the claim with that ceiling |
| `WorkCeiling.VerdictExactly` | crates/rsk-consensus/src/checkpoint.rs:467-481 | Impossible exactly for a claim above the ceiling, Plausible otherwise, with the numbers in the verdict |
| `WorkCeiling.TruthIsPlausible` | crates/rsk-consensus/src/checkpoint.rs:467-481 | a claim of no more than such a chain carries is never judged Impossible |
| `CeilingLimits.AverageNeedsTheSlack` | crates/rsk-consensus/src/checkpoint.rs:421-481 | that slack is needed: a thousand samples without uncles, at every second height of a chain of difficulty one, give the allowance 1654 and the ceiling 3000; an honest chain through them carries 3308 within that mean, and is judged Impossible; the divisions drop 308000 thousandths |
| `CeilingLimits.MeanIsCovered` | crates/rsk-consensus/src/checkpoint.rs:421-464 | when the gaps' divisions together drop less than one unit of work, no true chain within the mean exceeds the ceiling, the scaled products fitting |
| `CeilingLimits.AverageExactly` | crates/rsk-consensus/src/checkpoint.rs:421-464 | when some true chain attains the gaps' bounds, the ceiling covers every true chain within the mean exactly when the divisions drop less than one unit together or the sum reaches the largest value |
| `CeilingLimits.ScaleIsExactWhen` | crates/rsk-consensus/src/checkpoint.rs:429-430 | saturating before dividing by 1000 gives the true scaled value exactly when that value is at most MAX / 1000 |
| `CeilingLimits.SaturatedScaleRefusesTheTruth` | crates/rsk-consensus/src/checkpoint.rs:429-430 | past that an honest one-block chain without uncles is judged Impossible |
| `CeilingLimits.PlausibleExactly` | crates/rsk-consensus/src/checkpoint.rs:421-481 | without samples, every true chain and every claim up to its work is judged Plausible exactly when eleven times the tail's bound is at most MAX / 1000 or the checkpoint's work is within MAX / 1000 of the largest value |
| `ForkCore.WriteTxn.FindOwner` | crates/core/src/store/btc.rs:252-266 | the walk up the fork ancestry finds the fork that owns a height, and ends because parent ids fall |
| `ForkCore.WriteTxn.ReadRow` | crates/core/src/store/btc.rs:227-248 | a chain's row at a height is the owning fork's row |
| `ForkCore.WriteTxn.ReadChainwork` | crates/core/src/store/btc.rs:270-275 | fork choice reads the stored row's work, not the metadata's |
| `ForkCore.WriteTxn.OpenFork` | crates/core/src/store/btc.rs:412-440 | a new fork takes the next id, hangs off its parent and starts empty; nothing else changes |
| `ForkCore.WriteTxn.PutHeaders` | crates/core/src/store/btc.rs:446-490 | rows, hash index, root spine and tip after appending a run, and nothing else |
| `ForkCore.WorkScaled` | crates/core/src/store/btc.rs:516-522 | the repeated addition is the product |
| `ForkCore.WriteTxn.SeedTables` | crates/core/src/store/btc.rs:336-405 | seeding, with each of its refusals, gives the specified tables or leaves them |
| `ForkCore.SiftIn` | crates/core/src/btc/validation.rs:74-77 | one insertion in place equals inserting into the sorted rest |
| `ForkCore.SortAndPick` | crates/core/src/btc/validation.rs:74-77 | the array ends up sorted in place and the result is its middle element |
| `ForkCore.WriteTxn.MedianBelow` | crates/core/src/btc.rs:524-539 | the eleven timestamps below a height, read through batch, fork and ancestors; None if one is missing |
| `ForkCore.WriteTxn.CheckOne` | crates/core/src/btc.rs:316-365 | link, expected difficulty, median time and proof of work, in that order and with their errors |
| `ForkCore.WriteTxn.CheckAll` | crates/core/src/btc.rs:316-365 | the first failing header of a run decides, and earlier headers of the batch are visible to later ones |
| `ForkCore.WriteTxn.SelectBest` | crates/core/src/btc.rs:380-391 | the best fork changes only to a strictly heavier one |
| `ForkCore.WriteTxn.FinalizeInTxn` | crates/core/src/btc.rs:458-491 | the floor after a batch, and the state unchanged when a needed row is absent |
| `ForkCore.WriteTxn.ExtendRun` | crates/core/src/btc.rs:298-410 | validate, stamp, store, select, finalize: the whole new state or the error |
| `ForkCore.WriteTxn.AttachRun` | crates/core/src/btc.rs:276-296 | extend the tip, or open a fork unless it would start at or below the floor |
| `ForkCore.WriteTxn.ConnectIn` | crates/core/src/btc.rs:215-410 | network check, known prefix, unknown ancestor and the rest of one connect call |
| `ForkCore.WriteTxn.TailWorkFrom` | crates/core/src/btc.rs:120-133 | the difference of two cumulative works one period apart on the best chain |
| `ForkCore.Core.SeedCheckpoints` | crates/core/src/btc.rs:69-74 | a refused seeding leaves the committed store as it was; a genuine one establishes the store invariant |
| `ForkCore.Core.ConnectHeaders` | crates/core/src/btc.rs:215-410 | the committed store changes only on success, keeps its invariant, and the internal errors do not occur |
| `ForkCore.Core.HeightOfBlock` | crates/core/src/btc.rs:494-516 | the canonical walk with a mutable fork id |
| `ForkCore.Core.Checkpoints` | crates/core/src/btc.rs:142-159 | the boundary headers of the best chain up to the floor |
| `ForkSeeding.SortSorts` | crates/core/src/store/btc.rs:343-352 | the sorted entries are ascending and a permutation of those given |
| `ForkSeeding.SeedEstablishes` | crates/core/src/store/btc.rs:336-405 | seeding genuine boundaries, in any order, establishes the invariant with the floor at the last of them |
| `ForkInvariant.Owner` | crates/core/src/store/btc.rs:252-266 | in such a store every height up to a fork's tip and above the seeds has a stored owner |
| `ForkInvariant.ChainStep` | crates/core/src/store/btc.rs:227-248 | consecutive headers of a chain above the seeds link by hash, and each work is the one below plus its own |
| `ForkInvariant.TipIsStored` | crates/core/src/store/btc.rs:270-275 | every fork's tip row is there and is what fork choice reads |
| `ForkGrowth.GrowTree` | crates/core/src/store/btc.rs:446-490 | storing a checked run keeps forks, rows, index, heights, links and checks consistent |
| `ForkRuns.ReselectKeepsBest` | crates/core/src/btc.rs:380-391 | the best fork stays the heaviest of all |
| `ForkRuns.FinalizeEffect` | crates/core/src/btc.rs:458-491 | no needed row is missing; the floor moves only up, only while the root is best, to a boundary a whole period below the tip whose work above is at least that of the period before it |
| `ForkRuns.ConnectIsGood` | crates/core/src/btc.rs:215-410 | one call keeps the invariant; best work never falls; the best fork changes only to a strictly heavier one; the floor only rises; no internal error |
| `ForkFinality.RunsKeepInv` | crates/core/src/btc.rs:215-410 | the same over any run of calls, and the floor stays a period boundary |
| `ForkFinality.ReachableStores` | crates/core/src/btc.rs:215-410 | every store reached from a genuine seeding keeps the invariant, and no call on it fails for a missing parent or missing work |
| `ForkFinality.RunsKeepChains` | crates/core/src/store/btc.rs:446-490 | over any run the headers and works of every fork stay as they were up to its old tip |
| `ForkFinality.FinalizedIsRootWhen` | crates/core/src/btc.rs:458-491 | the canonical chain is the root's up to the floor exactly when the best fork left the root above it |
| `ForkFinality.FinalizedNeverChanges` | crates/core/src/btc.rs:282-296 | if no floor move passes the departure of a live fork, no canonical header up to the floor ever changes |
| `ForkDisplacement.BestAfter` | crates/core/src/btc.rs:380-391 | an accepted call makes the fork it extends or opens the best one exactly when its parent's work plus its run's exceeds the best tip's |
| `ForkDisplacement.DisplacesExactly` | crates/core/src/btc.rs:215-410 | from a store whose canonical chain is the root's up to a height not above the floor, one call changes a canonical header up to that height exactly when its headers attach and pass their checks, are not refused by the floor, follow a block of a fork that left the root at or below the height, and outweigh the best fork; a fork opened off such a fork is covered |
| `ForkDisplacement.FinalityOfRuns` | crates/core/src/btc.rs:215-410 | over any run of calls those headers never change exactly when no call meets that condition on the store it is made on |
| `ForkDisplacement.NothingToDisplace` | crates/core/src/btc.rs:282-296 | no call meets it while every live fork left the root above the height |
| `ForkWitness.PlainIsUnit` | crates/core/src/btc.rs:215-410 | there are rules, with hashes that do not collide and a unit of work a block, under which the assumptions of these theorems hold |
| `ForkWitness.ForkUnderFloor` | crates/core/src/btc.rs:458-491 | a store reached from a seeded genesis block by three calls, in which the floor has passed the height where a live fork left the root |
| `ForkWitness.FinalizedIsReplaced` | crates/core/src/btc.rs:282-296 | on that store a call replaces a header below the floor, and afterwards the canonical check accepts a block that is not on the best chain |
| `ForkChains.CanonicalCheckExact` | crates/core/src/btc.rs:494-516 | the canonical check accepts every block of the best chain, and besides exactly the blocks of ancestor forks at or over the height where the best chain left them |
| `ForkChains.ChainPasses` | crates/core/src/btc.rs:316-365 | every stored header above the seeds passes, on its own chain as stored, the checks it was connected under |
| `ForkChecks.TargetStays` | crates/core/src/btc/validation.rs:56-62 | on every stored chain above the seeds, where difficulty is enforced, a header inside a period carries the target of the one before it |
| `ForkChecks.TargetIsRecomputed` | crates/core/src/btc/validation.rs:62-70 | and a header at a period boundary the target recomputed from the first and last header of the period before, if the first is stored |
| `ForkChecks.TimesExactly` | crates/core/src/btc.rs:524-539 | the timestamps read for the median are those of the headers below, newest first, through run, fork and ancestors |
| `ForkChecks.RunPassesExactly` | crates/core/src/btc.rs:316-365 | a run passes exactly when each header follows the one before it by hash, has its target, is later than at least six of the eleven below it, and has its proof of work |
| `ForkChecks.RunRefused` | crates/core/src/btc.rs:316-365 | a refused run is refused for its first header that is not in order, and the error's kind, height and numbers say what is wrong with that header |
| `ForkOutcome.ConnectExactly` | crates/core/src/btc.rs:215-410 | a call succeeds exactly when it is for the seeded network and its new headers, if any, follow a stored block at its fork's tip or above the floor, all in order on that block's chain |
| `ForkOutcome.ConnectRefused` | crates/core/src/btc.rs:215-410 | a call that fails says why: network, unknown ancestor, floor, or the first header not in order |
| `ForkOutcome.ConnectReports` | crates/core/src/btc.rs:393-410 | the outcome gives the number of new headers, the best fork before and after with its tip's height, and the floor exactly if it moved; a call without new headers changes nothing |
| `ForkOutcome.AcceptedStores` | crates/core/src/store/btc.rs:446-490 | the new headers of an accepted call are stored one after the other on one fork, above the block they follow |
| `ForkOutcome.FinalizeExactly` | crates/core/src/btc.rs:458-491 | the floor moves to a height exactly when the root is best, the height is the last period boundary a whole period below its tip, above the floor, and the work above it is at least that of the period that ends there |
| `ForkOutcome.SeedExactly` | crates/core/src/store/btc.rs:336-405 | a seeding is accepted exactly when there is no root yet and the entries, in some order, are whole periods apart without a gap |
| `ForkOutcome.SeedRecords` | crates/core/src/store/btc.rs:336-405 | it records the network, the lowest height as the seed height and the highest as the floor |
| `ForkOutcome.HeightExactly` | crates/core/src/btc.rs:494-516 | a hash has a canonical height exactly when its block is stored on the best chain, or on a fork above it at or over where the best chain left it; the height is where it is stored |
| `ForkRecords.RunsKeepRecords` | crates/core/src/store/btc.rs:412-490 | over any run of calls every fork's record names the block at its tip and, but for the root, its first block |
| `ForkChains.MedianCounts` | crates/core/src/btc/validation.rs:74-77 | the median is at least a value exactly when six of the eleven timestamps are |
| `ForkChains.MedianNeverFalls` | crates/core/src/btc.rs:348-356 | the median of the next window is at least the present one, and a connected header is later than at least six of its eleven predecessors |
| `WorkLadder.WithinPeriod` | crates/core/src/btc/validation.rs:56-69 | where difficulty is enforced, every block of a period carries the boundary's target, and its work grows by that amount a block |
| `WorkLadder.LadderIsTheSum` | crates/core/src/store/btc.rs:359-383 | the ladder's arithmetic over boundary headers is the block-by-block sum of the chain through them |
| `WorkLadder.LadderAgreesAtBoundaries` | crates/core/src/store/btc.rs:328-405 | a store seeded with boundary headers and one that connected every header from genesis have the same work at every boundary |
| `WorkLadder.LadderAgreesAbove` | crates/core/src/btc.rs:367-378 | and at every height connected above the ladder |
| `CheckpointExport.ExportIsALadder` | crates/core/src/btc.rs:142-159 | what a node synced from genesis exports is an ascending ladder of period boundaries of its best chain, from genesis on |
| `CheckpointExport.ExportReseeds` | crates/core/src/btc.rs:135-159 | a store seeded with such an export has, at each of its heights and on every fork it ever grows, the work of the exporting node's best chain |
| `TailWork.WorkDifference` | crates/core/src/btc.rs:120-133 | a difference of cumulative works is the sum of the block works above the lower height |
| `TailWork.TailWorkExact` | crates/core/src/btc.rs:115-133 | the tail work is that of the blocks (start, start + 2016]; it is the documented [start, start + 2016) exactly when the first and the following boundary block are equally hard |
| `ForkMetaCodec.ReadBack` | crates/core/src/store/btc.rs:159-188 | every field of a fork record but the tip work (and a parent equal to the sentinel) comes back from storage |
| `ForkMetaCodec.TipWorkSurvivesWhen` | crates/core/src/store/btc.rs:159-188 | the tip work, written at 88..120 and read at 80..112, comes back exactly when its bytes are the last eight of the tip hash four times over |
| `ForkMetaCodec.RestoredRecord` | crates/core/src/store/btc.rs:159-188 | storing what was read back leaves the first 88 bytes as they were |
| `UncleRule.Ancestors` | crates/rsk-consensus/src/validation/uncles.rs:30-53 | the loop collects the hashes of the stored ancestors down to the floor |
| `UncleRule.UsedUncles` | crates/rsk-consensus/src/validation/uncles.rs:57-82 | the loop collects the uncle hashes those ancestors included |
| `UncleRule.Validate` | crates/rsk-consensus/src/validation/uncles.rs:99-171 | the loop over the uncles, growing `seen`, gives the rule's first error |
| `UncleRule.ListExact` | crates/rsk-consensus/src/validation/uncles.rs:99-171 | a list passes exactly when it is empty, or at most ten uncles, all distinct, each at most six below the block, off the ancestor window, unused in it, with a parent on it that the parent rules accept |
| `BlockRules.WindowExactly` | crates/rsk-consensus/src/validation/uncles.rs:30-53 | the ancestors looked at are the ends of paths of stored parents from the block's parent, none more than seven below the block |
| `BlockRules.UnclesExactly` | crates/rsk-consensus/src/validation/uncles.rs:99-171 | a list passes exactly when it is at most ten different uncles, each in order on its own and after its stored parent, that parent a near ancestor, at most six below the block, and neither a near ancestor nor named by one |
| `Forest.SubtreeWork` | crates/core/src/store/rsk.rs:232-249 | the explicit stack and `seen` set give the saturated sum over exactly the stored blocks reachable by child edges, each once; the walk ends, cycles and duplicate edges included |
| `Forest.WeightRises` | crates/core/src/store/rsk.rs:232-249 | a store with more edges and no less work under any hash gives no smaller weight |
| `Forest.WeightGrows` | crates/core/src/store/rsk.rs:232-249 | a store with more blocks and edges gives no smaller weight |
| `Forest.WeightIgnoresOrder` | crates/core/src/store/rsk.rs:302-310 | the weight depends on the edges as a relation, not on their order or repetition |
| `Forest.SteadyGrows` | crates/core/src/store/rsk.rs:262-277 | putting a stored block with the list stored for it, or a new one with any list, only adds to the store |
| `Forest.PutGrows` | crates/core/src/store/rsk.rs:262-277 | storing an entry with its committed uncles keeps what is under each hash faithful and only adds |
| `Forest.ReputChangesNoWeight` | crates/core/src/store/rsk.rs:262-310 | re-storing an entry with its list, the parent edge being recorded, lists the edge twice and changes no weight |
| `Forest.StoredAheadIsNotWeighed` | crates/core/src/store/rsk.rs:272-275 | a block stored ahead of its parent stays out of the parent's subtree when the parent is stored later |
| `ForestRuns.EdgesExactly` | crates/core/src/store/rsk.rs:262-277 | over any run from the empty store, whatever uncle lists roots come with, the child edges are exactly those of blocks put while their parent was stored |
| `ForestRuns.WeighedUnderParent` | crates/core/src/store/rsk.rs:232-277 | so a block weighs in its parent's subtree exactly when it was put, or put again, while the parent was stored |
| `ForestRuns.OrphanIsNotWeighed` | crates/core/src/rsk.rs:126-147 | a batch of a block without uncles and then its parent is accepted, and leaves the block outside the parent's subtree |
| `ForestRuns.LastPutHolds` | crates/core/src/store/rsk.rs:262-277 | in such a run what is stored under a hash is what the last step that put it carried |
| `ForestRuns.PutKeepsWeights` | crates/core/src/store/rsk.rs:262-277 | putting a block lowers no weight exactly when it is not stored yet or is stored with no more work than it now comes with, the sum below it fitting 256 bits |
| `ForestRuns.StepKeepsWeights` | crates/core/src/rsk.rs:88-120 | the same for every step of such a run, roots proposed again included |
| `ForestWitness.RootProposedAgain` | crates/core/src/rsk.rs:88-120 | a root proposed with an uncle and again without: its weight falls from 15 to 10 |
| `WeightOnce.WorkCounts` | crates/core/src/store/rsk.rs:232-249 | the work of a set of stored blocks is at least the difficulty of the different headers they name, blocks and uncles, and equals it exactly when none is named twice |
| `WeightOnce.WeightCounts` | crates/core/src/store/rsk.rs:232-249 | in every store of any run, a stored root's weight, while it fits 256 bits, is at least the difficulty of the different headers in its subtree, and equals it exactly when no header is named twice there |
| `WeightOnce.StoredUncleIsNamedTwice` | crates/core/src/rsk.rs:126-147 | a block is accepted with an uncle that is stored as a block under the same root; the root's subtree names that uncle twice |
| `Forest.ThresholdExact` | crates/core/src/rsk/checkpoint.rs:77-80 | the wrapping comparison is the 2/3 rule for every tail whose own product fits exactly when the work's product fits |
| `Forest.ThresholdExactForTail` | crates/core/src/rsk/checkpoint.rs:77-80 | and for every work whose own product fits exactly when the tail's product fits |
| `Forest.AttemptCheckpoint` | crates/core/src/rsk.rs:185-211 | the result is a qualifying root of greatest weight with its block's number, and None exactly when no stored root clears the threshold |
| `CountedOnce.Validate` | crates/core/src/rsk.rs:215-264 | uncle count, commitment, header rules (the parent's only if it is stored) and uncle rule, in that order |
| `BlockRules.BlockAcceptedExactly` | crates/core/src/rsk.rs:215-264 | a block whose parent is stored is accepted exactly when it carries as many uncles as it says and those it commits to, is in order on its own, has its parent's number plus one and passes the other parent rules, and may include each of its uncles |
| `BlockRules.BlockRefused` | crates/core/src/rsk.rs:215-264 | a refused block is refused with the first check that fails: each error under its own condition, and for uncles the first one with something wrong |
| `CountedOnce.ConnectHeaders` | crates/core/src/rsk.rs:126-147 | entries are validated against what the batch has staged; a refused entry drops the batch |
| `CountedOnce.ConnectAndAttempt` | crates/core/src/rsk.rs:126-147 | a connect call: the batch, its count, and the best checkpoint of what it left once there is a Bitcoin tail |
| `CountedOnce.OrphanAccepted` | crates/core/src/rsk.rs:234-243 | a block whose parent is not stored is accepted exactly when it has no uncles, commits to that and passes the rules for a header on its own |
| `CountedOnce.UncleAccepted` | crates/core/src/rsk.rs:215-264 | a block with one uncle, everything else about both in order, is accepted exactly when no list stored for a block of its window names the uncle |
| `CountedOnce.BatchIsRun` | crates/core/src/rsk.rs:126-147 | a batch that goes through is a run of validated steps |
| `CountedOnce.RunKnows` | crates/core/src/store/rsk.rs:262-277 | over any run, with whatever uncle lists roots are proposed, what a step stored every later store knows |
| `CountedOnce.RunHolds` | crates/core/src/store/rsk.rs:262-277 | and with its uncles, while no step replaces the list of a stored block |
| `CountedOnce.CommittedRunIsSteady` | crates/core/src/rsk.rs:88-120 | no step does while every entry carries the uncles its header commits to |
| `CountedOnce.WeightsNeverFall` | crates/core/src/store/rsk.rs:232-277 | while no step replaces a list no weight ever falls, whatever its root |
| `CountedOnce.NumbersRise` | crates/rsk-consensus/src/validation/header_rules.rs:14-28 | along accepted blocks numbers rise by one |
| `ChainDifficulty.AcceptedIsChain` | crates/rsk-consensus/src/validation/difficulty.rs:20-33 | where the parent rules include the retarget, the difficulties of an accepted chain past orchid and under one divisor are a chain of the rule, as long as no rise wraps |
| `ChainDifficulty.AcceptedWorkIsBounded` | crates/rsk-consensus/src/checkpoint.rs:148-213 | so their sum is under the work bound between its first and last difficulty |
| `ChainDifficulty.AcceptedIsTrueChain` | crates/rsk-consensus/src/checkpoint.rs:421-464 | and with any of its blocks as samples it is a chain the ceiling's theorems are about |
| `ChainDifficulty.UncleSteps` | crates/rsk-consensus/src/validation/uncles.rs:157-168 | an included uncle's difficulty is a step of the rule from its parent's, a near ancestor of the block |
| `CountedOnce.UncleFacts` | crates/rsk-consensus/src/validation/uncles.rs:125-168 | what an accepted uncle satisfies against the whole chain below its block: young enough, none of its blocks, and on none of the lists its store has for them |
| `CountedOnce.NoUncleIsTrunk` | crates/rsk-consensus/src/validation/uncles.rs:125-168 | no uncle of an accepted block is a block of the chain, below it or above |
| `CountedOnce.NoUncleTwice` | crates/rsk-consensus/src/validation/uncles.rs:125-168 | an accepted block's uncles are distinct, and it includes one that an accepted block below it included exactly when the list its store had for that block no longer named it; the generation limit makes the window enough |
| `TrunkWork.JudgedOnce` | crates/rsk-consensus/src/validation/uncles.rs:125-168 | the headers an accepted chain counts above its first block's uncles are different exactly when no store had forgotten an uncle that it then accepted again |
| `TrunkWork.CountedExactly` | crates/core/src/store/rsk.rs:318-326 | with the first block's uncles, which no rule looked at, the chain counts each header once exactly when moreover their list is distinct and shares no hash with the rest |
| `TrunkWork.CountedAtMostOnce` | crates/core/src/store/rsk.rs:318-326 | if the first header commits to that list, exactly when the list is distinct and no store had forgotten an uncle, the first block's included |
| `TrunkWork.StoredWorkIsCounted` | crates/core/src/store/rsk.rs:318-326 | the work stored under the chain's blocks is at most the sum of all the difficulties counted, the first block's uncles included, and equal exactly when no block's own sum saturates |
| `TrunkWork.PickedIsAccepted` | crates/core/src/rsk.rs:215-264 | steps of a run, each validated with its parent stored, make an accepted chain |
| `TrunkWork.EveryBlockHasItsChain` | crates/core/src/rsk.rs:126-147 | every block a run stored ends such a chain, down to a proposed root or a block stored ahead of its parent |
| `TrunkWork.KeepingRunRemembers` | crates/core/src/rsk.rs:88-120 | nothing is forgotten in a run in which no put drops a name from the list stored for its block |
| `TrunkWork.RunCountsOnce` | crates/core/src/rsk.rs:88-147 | so in every run, whatever lists roots are proposed and proposed again with, every block ends a chain that counts each header once exactly when the list it began with is distinct and apart from the rest and nothing was forgotten; and a store that still has the chain's lists keeps no more work for it than that of the headers counted |
| `TrunkWork.SteadyRunCountsOnce` | crates/core/src/rsk.rs:88-147 | while no step replaces a stored list, every later store keeps no more than that, and the headers are different exactly when the first list is distinct and apart from the rest, which its commitment implies |
| `UncleReturns.KeepsExactly` | crates/core/src/rsk.rs:88-120 | a put drops no name from its block's list exactly when no list of the store loses one |
| `UncleReturns.ReturnsExactly` | crates/core/src/rsk.rs:88-120 | after a stored block was proposed again, a block with one uncle, in order otherwise, is accepted exactly when the new list, where it is in the window, and the other stored lists of the window do not name the uncle |
| `UncleReturns.UncleComesBack` | crates/core/src/rsk.rs:88-147 | a run from a root without uncles: a block is connected with an uncle, proposed again without, the next one is connected with the same uncle, and the first once more with it; the chain's stored work is 8 where its five headers have 6 |
| `ForestWitness.PlainIsConsensus` | crates/core/src/rsk.rs:215-264 | there are hashes and commitments for which the assumptions of these theorems hold |
| `ForestWitness.UncleCountedTwice` | crates/core/src/rsk.rs:88-120 | a root whose header commits to one uncle twice is stored with that uncle's difficulty twice |
| `ForestWitness.UncleOnTop` | crates/core/src/rsk.rs:88-120 | a root proposed with the block that comes on top of it as an uncle, which is not what its header commits to: that block is accepted and its difficulty counted twice |
| `Coinbase.TagIsText` | crates/rsk-consensus/src/validation/merged_mining.rs:6-7 | the tag is the nine characters `RSKBLOCK:` |
| `Coinbase.InitialStateIsRoots` | crates/rsk-consensus/src/validation/merged_mining.rs:339-360 | the initial state is the first 32 bits of the fractional parts of the square roots of the first eight primes |
| `Coinbase.PaddingForm` | crates/rsk-consensus/src/validation/merged_mining.rs:344-349 | the padding is a one bit, zeros, and the length in bits in eight bytes |
| `Coinbase.PaddingIsLeast` | crates/rsk-consensus/src/validation/merged_mining.rs:344-349 | the padding is the shortest that ends on a block boundary with room for the length |
| `Coinbase.Sha256FromMidstate` | crates/rsk-consensus/src/validation/merged_mining.rs:339-360 | the padding loop and the block loop compute the resumed hash |
| `Coinbase.ResumeIsWhole` | crates/rsk-consensus/src/validation/merged_mining.rs:339-360 | cut at any block boundary, resuming from the midstate hashes the whole message |
| `Coinbase.CompressCoinbase` | crates/rsk-consensus/src/validation/merged_mining.rs:273-324 | each error under its own condition, and otherwise count, midstate and tail from the block boundary at or before the tag; the tag is never too deep |
| `Coinbase.ComputeCoinbaseHash` | crates/rsk-consensus/src/validation/merged_mining.rs:211-238 | the hash read off a compressed coinbase |
| `Coinbase.CompressedForm` | crates/rsk-consensus/src/validation/merged_mining.rs:311-324 | the compressed form is the number of bytes hashed already in eight bytes, the eight words of the state after them, and the rest of the coinbase |
| `Coinbase.HashOfCompressed` | crates/rsk-consensus/src/validation/merged_mining.rs:211-238 | for every cut at a block boundary it is the reversed double SHA-256 of the whole coinbase |
| `Coinbase.CompressThenHash` | crates/rsk-consensus/src/validation/merged_mining.rs:258-324 | producer then verifier: that hash, exactly for the coinbases whose chosen tag has 32 to 160 bytes after it |
| `Coinbase.TagOkExact` | crates/rsk-consensus/src/validation/merged_mining.rs:80-114 | the tag checks pass exactly when the tail's last tag is in its first block, is followed by the expected bytes, and leaves 0 to 128 bytes after 32 |
| `Coinbase.CutPasses` | crates/rsk-consensus/src/validation/merged_mining.rs:80-114 | the same for a coinbase compressed at any boundary before its last tag |
| `Coinbase.CompressedPasses` | crates/rsk-consensus/src/validation/merged_mining.rs:268-309 | what the producer accepts around the last tag, the verifier accepts exactly when the expected bytes follow that tag |
| `Coinbase.FirstTagPasses` | crates/rsk-consensus/src/validation/merged_mining.rs:268-272 | compressed around the first of several tags, a coinbase is judged by the last |
| `Coinbase.ForkDataIsHashTail` | crates/rsk-consensus/src/validation/merged_mining.rs:164-185 | a compressed coinbase that passes yields as fork-detection data the last 12 of the 32 bytes after the tag |
| `Rlp.HeadReadsBack` | crates/rsk-consensus/src/types/header.rs:134-139 | an item header decodes to its kind and length for every canonical payload |
| `Rlp.HeadIsCanonical` | crates/rsk-consensus/src/types/header.rs:149-153 | an item header that decodes is the one the encoder writes for what it announces |
| `Rlp.StringIsCanonical` | crates/rsk-consensus/src/types/header.rs:149-153 | a string that decodes has the one encoding the encoder gives it |
| `Rlp.DecodeU64Lenient` | crates/rsk-consensus/src/rlp_compat.rs:61-85 | the shifting loop decodes a stripped integer of at most eight bytes without losing a bit |
| `Rlp.LenientIsInRange` | crates/rsk-consensus/src/rlp_compat.rs:61-108 | a decoded integer fits the width asked for |
| `Rlp.PaddedReadsBack` | crates/rsk-consensus/src/rlp_compat.rs:88-108 | any number of leading zeros before an integer's minimal bytes decodes to that integer |
| `RlpItems.CountRemaining` | crates/rsk-consensus/src/types/header.rs:214-230 | the loop counts the whole items left |
| `RlpItems.SkipUpTo` | crates/rsk-consensus/src/types/header.rs:329-343 | the loop skips up to sixteen items, or as many as can be read |
| `RlpItems.ItemEnds` | crates/rsk-consensus/src/types/header.rs:278-288 | the loop collects where each item ends, or fails on one it cannot read |
| `HeaderCodec.SignedReadsBack` | crates/rsk-consensus/src/types/header.rs:55-67 | the sign-prefixed form decodes to the value it encodes |
| `HeaderForm.SignedForm` | crates/rsk-consensus/src/types/header.rs:55-67 | the sign-prefixed form is the shortest non-empty string with its top bit clear that is the number |
| `HeaderForm.SignedItem` | crates/rsk-consensus/src/types/header.rs:71-131 | difficulty, gas limit and minimum gas price are written in that form |
| `HeaderForm.UnsignedItem` | crates/rsk-consensus/src/types/header.rs:71-131 | number, gas used, timestamp, paid fees and uncle count as the shortest string that is the number |
| `HeaderCodec.DecodeHeader` | crates/rsk-consensus/src/types/header.rs:149-247 | the decoder with its counting loop computes the specified decoding, error cases included |
| `HeaderCodec.DecodeOfEncode` | crates/rsk-consensus/src/types/header.rs:131-247 | what decoding an encoding gives, for every header: missing proof or coinbase become empty, a lone ummRoot becomes the mining header |
| `HeaderCodec.RoundTripExact` | crates/rsk-consensus/src/types/header.rs:131-247 | a header comes back as it was exactly when it has no extension data, all or none of the three mining fields, and an ummRoot only with them |
| `HeaderCodec.EncodingIsInjective` | crates/rsk-consensus/src/types/header.rs:131-147 | two such headers with one encoding are the same |
| `HeaderHashes.PayloadWithoutLastTwo` | crates/rsk-consensus/src/types/header.rs:274-301 | the payload a block hash is taken over is cut by the collected item ends |
| `HeaderHashes.DecodeHeaderWithHash` | crates/rsk-consensus/src/types/header.rs:305-401 | decoding with both hashes cached from the received bytes |
| `HeaderHashes.BlockHashesAgree` | crates/rsk-consensus/src/types/header.rs:257-318 | for every header, the block hash sliced from the wire is the one rebuilt from the fields |
| `HeaderHashes.MiningHashesAgree` | crates/rsk-consensus/src/types/header.rs:319-443 | so is the merged-mining hash, for every header without a lone ummRoot |
| `HeaderHashes.LoneUmmIsNotHashed` | crates/rsk-consensus/src/types/header.rs:232-237 | a lone ummRoot is not hashed by the receiver |
| `HeaderHashes.ReceivedIsBuilt` | crates/rsk-consensus/src/types/header.rs:305-401 | a received header is the built one with both of the builder's hashes |
| `HeaderHashes.RelayKeepsHashes` | crates/rsk-consensus/src/types/header.rs:257-270 | encoding it again changes neither bytes nor hashes |
| `HeaderForm.HashCommits` | crates/rsk-consensus/src/types/header.rs:250-270 | after orchid, if the hash function does not collide, two headers have one block hash exactly when they differ at most in extension data, proof and coinbase |
| `HeaderForm.EarlyHashCommits` | crates/rsk-consensus/src/types/header.rs:250-270 | before, exactly when they are the same |
| `HeaderForm.MiningHashForm` | crates/rsk-consensus/src/types/header.rs:405-443 | merged mining commits to the sixteen fields and the ummRoot, and if that is not empty to the first twenty bytes of their hash followed by it |
| `FrameHeader.ParseHeaderData` | crates/rsk-p2p/src/rlpx/frame.rs:270-339 | the element loop reads at most four integers and stops at anything else |
| `FrameHeader.FirstParses` | crates/rsk-p2p/src/rlpx/frame.rs:265-339 | `rlp([0, contextId, totalSize])` parses as a first chunk with those numbers |
| `FrameHeader.ContinuationParses` | crates/rsk-p2p/src/rlpx/frame.rs:265-339 | `rlp([0, contextId])` parses as a continuation |
| `FrameHeader.NormalParses` | crates/rsk-p2p/src/rlpx/frame.rs:265-339 | `rlp([0])` parses as a whole message |
| `FrameStream.CallIsFrontOfDrain` | crates/rsk-p2p/src/rlpx/frame.rs:124-174 | a call that consumes nothing has drained the buffer; any other is the front of the draining |
| `FrameStream.DrainInTwo` | crates/rsk-p2p/src/rlpx/frame.rs:124-253 | draining the bytes there are and the rest later is draining them all at once |
| `FrameStream.FragmentationIsInvisible` | crates/rsk-p2p/src/rlpx/frame.rs:124-253 | for every byte stream, valid or not, messages, error and final state do not depend on how it was cut |
| `FrameAuth.HeadVerdict` | crates/rsk-p2p/src/rlpx/frame.rs:125-149 | a header is refused exactly when its tag is not the digest after it, written out; it stays in the buffer with the MAC advanced |
| `FrameAuth.BodyVerdict` | crates/rsk-p2p/src/rlpx/frame.rs:151-174 | a body that is all there is refused exactly when its tag is not the digest after the body and its seed, written out; it is consumed, and otherwise decrypted and acted on |
| `FrameAuth.ContentVerdict` | crates/rsk-p2p/src/rlpx/frame.rs:176-263 | each refusal of a frame's content under its own condition, with the state of the assembly after it |
| `FrameAuth.OnlyAuthentic` | crates/rsk-p2p/src/rlpx/frame.rs:124-253 | whatever bytes come in, the messages handed over are those carried by frames at the front of them whose tags all match |
| `FrameAuth.SentIsAuthentic` | crates/rsk-p2p/src/rlpx/frame.rs:77-122 | what a sender writes is such a frame, announcing the length of its content |
| `FrameExchange.CallTakesFrame` | crates/rsk-p2p/src/rlpx/frame.rs:77-253 | one call takes one frame from a synchronized stream and acts on its content |
| `FrameExchange.WholeFrameExact` | crates/rsk-p2p/src/rlpx/frame.rs:77-122 | a message sent in one frame comes out as it went in exactly when its content is shorter than 2^24 bytes |
| `FrameExchange.WireDelivers` | crates/rsk-p2p/src/rlpx/frame.rs:77-253 | a stream of frames delivers what the frames say and leaves no byte |
| `FrameExchange.SentArrives` | crates/rsk-p2p/src/rlpx/frame.rs:176-253 | a message split anywhere into a first chunk and continuations is delivered once, as it was, from any assembly state |
| `FrameExchange.ExchangeIsFaithful` | crates/rsk-p2p/src/rlpx/frame.rs:77-253 | any list of messages, whole or chunked, in any fragmentation, comes out as exactly that list without an error or leftover |
| `FrameExchange.AdvanceKeepsBound` | crates/rsk-p2p/src/rlpx/frame.rs:176-244 | whatever arrives, a message under way is short of what it expects and that is at most 16 MiB |
| `FrameExchange.DrainKeepsBound` | crates/rsk-p2p/src/rlpx/frame.rs:176-244 | so over any stream |
| `FrameExchange.NothingIsNotDrained` | crates/rsk-p2p/src/rlpx/frame.rs:203-211 | a call may yield no message although a whole one is buffered: the first chunk ends the call |
| `FrameCodec.FrameCodec.constructor` | crates/rsk-p2p/src/rlpx/frame.rs:56-75 | a new codec stands at the start of both directions |
| `FrameCodec.FrameCodec.EncodeFrame` | crates/rsk-p2p/src/rlpx/frame.rs:77-122 | the bytes of one frame and the egress state after it; the other direction unchanged |
| `FrameCodec.FrameCodec.ReadHead` | crates/rsk-p2p/src/rlpx/frame.rs:125-149 | a header is authenticated, decrypted and consumed, or left in the buffer with the MAC advanced |
| `FrameCodec.FrameCodec.TakeContent` | crates/rsk-p2p/src/rlpx/frame.rs:176-252 | delivery, assembly and its two limits |
| `FrameCodec.FrameCodec.ResetAssembly` | crates/rsk-p2p/src/rlpx/frame.rs:258-263 | the assembly after a reset |
| `FrameCodec.FrameCodec.ReadBody` | crates/rsk-p2p/src/rlpx/frame.rs:151-174 | a body is read only when it is all there; authenticated, decrypted and acted on |
| `FrameCodec.FrameCodec.DecodeFrame` | crates/rsk-p2p/src/rlpx/frame.rs:124-253 | one call, with the egress state unchanged |
| `FrameCodec.FrameCodec.DecodeAll` | crates/rsk-p2p/src/rlpx/frame.rs:124-253 | calling until nothing is consumed drains the buffer |
| `Snap.ReadStrings` | crates/rsk-p2p/src/protocol/snap.rs:556-560 | the loop decodes strings until the list is used up |
| `Snap.ReadEntries` | crates/rsk-p2p/src/protocol/snap.rs:543-566 | the loop decodes the entries of a proved chunk |
| `Snap.WritePayload` | crates/rsk-p2p/src/protocol/snap.rs:493-520 | the loops write entries and witness |
| `Snap.ReadProved` | crates/rsk-p2p/src/protocol/snap.rs:536-578 | entries and witness in order, with their errors |
| `Snap.PayloadReadsBack` | crates/rsk-p2p/src/protocol/snap.rs:493-579 | a chunk payload of any size and either dialect comes back as it was, with anything after it |
| `Snap.BothFramingsSplit` | crates/rsk-p2p/src/protocol/snap.rs:346-385 | the list framing and the older string-wrapped one give the same id and fields |
| `Snap.RequestReadsBack` | crates/rsk-p2p/src/protocol/snap.rs:436-478 | every chunk request comes back from either framing, with or without its root |
| `Snap.ResponseReadsBack` | crates/rsk-p2p/src/protocol/snap.rs:582-623 | every chunk response comes back from either framing, with or without its trailing refusal |
| `Snap.Code` | crates/rsk-p2p/src/protocol/snap.rs:126-152 | a refusal's code reads back to it |

## Left out

- Block, fork and height numbers and Bitcoin work are unbounded; the source's `u64` and its 256-bit `Work` addition are not wrapped on the Bitcoin side.
- The retarget formula, compact targets, proof of work and the sort routine of the standard library: parameters, or an insertion sort in the same place.
- The database: a transaction is a copy of the tables kept on success and dropped otherwise; durability and concurrent readers are not modelled.
- The genuineness of the seeded headers: the code does not check it, so it is a condition of the theorems about reachable stores.
- `tip_work` inside the fork tree's model: nothing reads it; its storage is treated in `ForkMetaCodec`.
- Raw bytes in the Rootstock store: headers and uncle lists are stored as values, so a stored header that fails to decode later does not arise.
- `propose_checkpoint`: a root is a step without validation, with whatever uncle list it is given. Its anchor check, a lookup through the canonical check and a range test, is not part of the step.
- The header rules other than the block number are two opaque predicates: clock, gas, extra data, gas price and merged-mining rules are local checks. That they include the retarget is the condition of `ChainDifficulty`.
- WorkCeiling.CeilingIsSound: one divisor for the whole stretch; a gap across the height where the divisor changes is not covered, because the source passes one divisor as well.
- UncleAllowance.AllowanceRange: the statistical confidence of the allowance is not modelled, nor overflow of its 128-bit sums for counts far above the consensus limit of ten.
- `audit_own_chain` and the embedded checkpoint: an if over one comparison, and constants.
- Coinbase.ResumeIsWhole: messages whose length in bits fits 64 bits, which is the domain of SHA-256 in FIPS 180-4.
- The Merkle proof and proof-of-work checks of merged mining around the coinbase: folds over an abstract hash with no inverse in the code.
- FrameHeader.ParseHeaderData: the addition of list start and list length is not wrapped at 64 bits; it differs only for a declared list length within a few bytes of 2^64.
- FrameExchange.ExchangeIsFaithful: the handshake that puts both ends in step, the ciphers themselves and their strength.
- HeaderCodec.RoundTripExact: payloads shorter than 2^64 bytes; a `cached` hash set by hand before encoding is not looked at.
- Snap status and block messages: the same framing around other fields.
- Sockets, discovery, the peer pool, the sync driver, logging and the command line.
