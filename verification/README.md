# CCIP plugins: a verified model

A Dafny model of the decision logic of the CCIP commit and execute plugins and of the fast-curse
planner, with proofs of what that logic is for: which reports can be made although some oracles lie,
that waits end, that every message number is committed once, that an honest observation is always
accepted, and which lanes a curse blocks on both ends.

`dafny verify dfyconfig.toml` checks everything.

## How the model is built

Code that works step by step is a `method` with a loop; the counting objects are classes. Each
method is tied to a specification (a function, or a predicate such as `IsConsensus` that says what a
result is), and the main results are lemmas about that specification.

- **Maps have no order.** Wherever the code ranges over a map, the model picks keys in an arbitrary
  order. What a method promises therefore holds for every order; `StepDeterministic`,
  `HashConsensusUnique`, `MessageConsensusUnique` and `MergeIsUnique` also say that the result is the
  same for all of them, and `DeterminedExactly` when it is for the consensus on roots.
- **Numbers.** Sequence numbers and chain selectors are 64-bit. `Length`, `Limit` and `End + 1` wrap
  as in the code. Loops of the form `j <= End; j++` only end when `End` is below the last number;
  that is a precondition of the methods with such a loop. A slice has fewer than 2^63 elements.
- **f per chain** is a natural number in observations: the check refuses anything below one, also
  negative values.
- **Fault model.** One observation per oracle and round, every one of them accepted by the checks; at
  most F of the observers and at most f of the readers of a chain are faulty, and whoever is not
  faulty observes what the protocol says, though reads may fail or differ. How many faulty oracles
  can vote on something follows from this and from the checks: at most f of a chain where the checks
  ask for readers of that chain, at most F where they ask for nothing.
- **Inputs.** What chains, readers, hashers, codecs, registries and adapters answer is an arbitrary
  input, as are the numbers of prices that the price processors would select. Counting objects use
  the value itself where the code uses a hash of it. `SeqNumRange` and `IsPseudoDeleted` come from a
  library that is not part of this repository; they are modelled from their use. The off-ramp
  contract is a counter per chain that an applied root moves to the number after its range.

## The main results

- **Runs of the merkle-root processor** (`MerkleRootRuns.PendingRootsMatchSelection`): in every run,
  every root of a pending report covers exactly the range selected for its chain in one earlier round (a
  selected range may be left without a root), starts at the off-ramp number still carried for its
  chain, and is backed by more honest oracles than its chain may have faulty ones.
  `MerkleRootWaits.WaitsEndExactly` says for which limits every wait is bounded.
- **Progress** (`MerkleRootProgress.NewIsSelected`, `RootIsReported`, `MovedIsNoticed`): if enough oracles
  report and the honest ones agree, a new message is selected, its root is reported and its arrival is
  noticed, whatever the faulty ones say.
- **Committed once** (`CommitReports.CommittedRangesTile`): over any history of submissions the
  committed ranges of a chain tile the numbers between its first and its current counter.
  `CommitSystem.OwnReportsAccepted` joins this to the processor, and
  `CommitHistory.TransmittedMeansCommitted` shows, for runs beside the history they read, that with
  several reports a report that counts as transmitted has been; `CommitSingle.AboutRootsExactly` says
  when that is so with one.
- **Prices** (`Prices.InFlightIsBounded`, `PriceWaits.WaitsExactly`): prices in flight are never
  replaced and are given up after exactly the configured number of checks, modulo 2^32.
  `PriceRecords.RecordedExactly` and `KeptExactly` say by counting observations what each round does.
- **Execute observations** (`ExecMessages.ResultIsAccepted`): whatever an honest oracle builds, wherever
  the limits cut it off, passes all checks. `ExecEntries.WholeExactly` and `CutExactly` say what it has
  under every number.
- **Execute consensus** (`ExecMessageConsensus.ChosenExactly`, `ExecMessageSafety.HonestAgreementDecides`,
  `ExecMessageSafety.HonestHashDecides`): exactly what is chosen, and that honest oracles that agree
  decide, in every round the fault model allows. `ExecMessageCount.ConsensusByCount` and
  `ExecCommitCount.AgreedByCount` state the same by counting who reports what.
- **Execute roots** (`ExecCommitQuorum.NonEmptyRootsExactly`): every agreed root that is not empty has an
  honest reporter exactly if F or the destination's f is at most the f of its chain. Then
  `ExecCommitQuorum.AgreedReportsAreGood` shows that the consensus of one phase meets what the next
  phase asks.
- **Curses** (`FastCurseApply.BothEndsBlocked`, `FastCurseApply.CurseOneWayExactly`): after a curse both
  ends of every lane that the configuration lists block it, and for any pair of chains it is said
  exactly when a curse leaves them cursed one way.

## Where the code does less than one might expect

- `LowerBoundExactly`, `UpperBoundExactly`: with at most b faulty ones among n votes, the f-th smallest is
  never below every honest vote exactly if b <= f, and never above every honest vote exactly if
  n >= f + b + 1. The off-ramp numbers have 2f + 1 votes, all of them from readers of the destination,
  so both hold. The price round on chain (commit/plugin.go:575-581) and the nonces
  (execute/plugin_functions.go:855-862) ask for f + 1 votes only, and no check looks at who votes, so
  that b is F. `KeptIsTrueExactly` and `SeenIsTrueExactly` (prices), `NeverTooLowExactly` and
  `NeverTooHighExactly` (nonces) are the exact conditions; `FaultyKeep`, `FaultyConfirm`,
  `FaultyDeflate` and `FaultyInflate` are rounds in which the code is misled.
- `NonEmptyRootsExactly`: roots are first agreed on by readers of the destination
  (execute/plugin_functions.go:64-81) with the f of the source chain as threshold
  (execute/plugin_functions.go:543-552). If F and the destination's f are both above the source's f,
  faulty oracles can get a root agreed that no honest one reports. Empty roots are not checked at all;
  for them F counts (`EmptyRootsExactly`). In the messages phase only roots with an empty range are
  open to this (`NonEmptyRangesHonest`, `EmptyRangesExactly`).
- `DeterminedExactly`: reports of one chain are sorted by start only, so the consensus on roots depends
  on map order exactly if two kept roots of a chain start at the same number. `TwoResults` is an input
  with two results, and `FaultyDestReaders` shows that two faulty readers of the destination bring it
  about although the honest oracles see one chain. `HonestConsensusDetermined` rules it out when they
  do and every supported root is trusted, that is, meets the condition just named.
- `AboutRootsExactly`: with one report, any recorded chain that moves ends the wait
  (commit/merkleroot/outcome.go:195-224), so ReportTransmitted is about the pending roots exactly if
  every recorded chain that can move has one. `TransmittedUncommitted` is a run that ends with ReportTransmitted while
  nothing of the pending root's chain has been committed.
- `WaitsEndExactly`: attempts are encoded with 32 bits (pkg/ocrtypecodec/v1/commit.go:152), so waiting is
  bounded exactly if the limit is at most 2^32.
- `GlobalAloneIsOneWay`: a global action without lane actions is accepted and leaves every lane of the
  chain blocked on its end only.
- `WaitsExactly`: the price checks that remain are encoded with 32 bits (pkg/ocrtypecodec/v1/commit.go:162).
  A negative number of retries, which configuration defaults do not replace
  (pluginconfig/commit.go:177-178), counts down through the wrap and so keeps a price in flight for up
  to 2^32 - 1 further outcomes (`NegativeRetriesWaitLong`).
- `MergeExactlyCorrect`: `End() + 1` wraps when a report takes the whole number space.
- `FilledIsAligned`: hashes and token data of a report are not reset when messages are, so the three
  lists go together exactly if the report came in without hashes and token data. After the consensus
  it always does. The comment at execute/outcome.go:158 says that a report without messages is
  removed; the code keeps it, and so does the model.
- `GlobalUncurseLeavesOneWay`: curse a lane, curse one of its ends globally, and undo the global
  curse: the lane is left cursed one way. `UncurseOneWayExactly` gives the exact condition.
- The comment on `GetConsensusMap` promises the item with most observations; the code returns an item
  only if it alone reaches the threshold, and so does the model.

## Model

| member | source | states |
|---|---|---|
| `CcipTypes.LimitIsPrefix` | commit/merkleroot/outcome.go:116-121 | limiting a range keeps its start, stays inside it and leaves the smaller of both sizes, although the code's sums wrap |
| `Sorting.OrderStatistic` | commit/merkleroot/outcome.go:307-308 | the f-th element of the sorted values has f + 1 values at or below it and n - f at or above it |
| `Votes.Aggregate` | commit/merkleroot/types.go:62-98 | the map has, per chain, exactly the values of all observations in order, and no empty list |
| `Votes.CountIsOracles` | commit/merkleroot/types.go:62-98 | with one entry per chain and oracle, counting values is counting different oracles |
| `Votes.HonestBounds` | commit/merkleroot/outcome.go:291-314 | with at most b faulty votes the f-th smallest is not below every honest vote if b <= f, and not above every honest vote if there are f + b + 1 votes |
| `Votes.LowerBoundExactly` | commit/merkleroot/outcome.go:300-308 | the lower bound holds for all votes exactly if b <= f |
| `Votes.UpperBoundExactly` | commit/merkleroot/outcome.go:300-308 | the upper bound holds for all votes exactly if there are at least f + b + 1 of them |
| `Consensus.MinObservation.Add` | internal/plugincommon/consensus/min_observation.go:48-55 | one more count for the value added and for no other |
| `Consensus.MinObservation.GetValid` | internal/plugincommon/consensus/min_observation.go:57-66 | exactly the values added at least threshold times, each once |
| `Consensus.OracleMinObservation.Add` | internal/plugincommon/consensus/oracle_min_observation.go:51-57 | the oracle is recorded for the value, once however often it adds it |
| `Consensus.OracleMinObservation.GetValid` | internal/plugincommon/consensus/oracle_min_observation.go:59-68 | exactly the values that at least threshold different oracles added, each once |
| `Consensus.GetConsensusMap` | internal/plugincommon/consensus/consensus.go:18-51 | a key has value v exactly if it has a threshold and v alone reached it |
| `Consensus.GetOrderedConsensus` | internal/plugincommon/consensus/consensus.go:105-140 | a key has a value exactly if its f is known and positive and it has 2f + 1 values; the value is the f-th smallest |
| `Agreement.AgreePerChain` | commit/merkleroot/outcome.go:250-255 | aggregating and counting agree on v for a chain exactly if v alone reached the chain's threshold |
| `Agreement.HonestWinner` | commit/merkleroot/outcome.go:265-275 | a value that reached a threshold has at least the threshold less the faulty voters as honest voters |
| `MerkleRoot.GetConsensusObservation` | commit/merkleroot/outcome.go:244-284 | f per chain needs 2F + 1 equal votes, roots 2f + 1, off-ramp numbers are judged by the destination's f; without an f for the destination there is nothing else |
| `MerkleRoot.OffRampNextSeqNumsConsensus` | commit/merkleroot/outcome.go:291-314 | a number for a chain exactly if it has 2f + 1 votes, namely the f-th smallest |
| `MerkleRoot.ReportRangesOutcome` | commit/merkleroot/outcome.go:80-148 | a range for exactly the chains with new messages, a number for each chain the off-ramp knows, both strictly by chain; empty if there is nothing new |
| `MerkleRoot.BuildMerkleRootsOutcome` | commit/merkleroot/outcome.go:151-172 | exactly the agreed roots, strictly by chain, with the off-ramp numbers carried over |
| `MerkleRoot.CheckForReportTransmission` | commit/merkleroot/outcome.go:181-241 | transmitted exactly if every pending chain advanced (several reports), or some recorded chain did or nothing is pending (one report); else failed at the limit, else in flight with everything carried over and one attempt more, in 32 bits |
| `MerkleRoot.GetOutcome` | commit/merkleroot/outcome.go:48-77 | the outcome is empty without an agreed f for the destination, and otherwise what selecting, building or waiting makes of the agreed values |
| `MerkleRoot.RootsKeyedByChain` | commit/merkleroot/types.go:72-76 | an agreed root belongs to the chain it is agreed for |
| `MerkleRoot.StepDeterministic` | commit/merkleroot/outcome.go:48-77 | previous outcome and observations determine the next outcome, whatever order the maps are walked in |
| `MerkleRootProgress.SelectedExactly` | commit/merkleroot/outcome.go:80-148 | a chain has a range exactly if its agreed next number is at most its agreed last one; the range goes from the one to the other, or has as many numbers as a tree may have; the outcome is empty exactly if there is no such chain |
| `MerkleRootProgress.NewIsSelected` | commit/merkleroot/outcome.go:80-148 | progress: whoever lies within the bounds, a chain with enough reports is selected, from a number no later than m, if the honest oracles agree that message m is there and not yet known to the off-ramp |
| `MerkleRootProgress.RootIsReported` | commit/merkleroot/outcome.go:151-172 | progress: a root with 2f + 1 reporters is in the report if the honest oracles report no other for its chain |
| `MerkleRootProgress.WaitedExactly` | commit/merkleroot/outcome.go:181-241 | a wait ends as transmitted exactly if every root's chain (several reports) or any recorded chain (one) has an agreed number above the recorded one, else as failed exactly at the last attempt, and otherwise goes on with the same roots and numbers |
| `MerkleRootProgress.MovedIsNoticed` | commit/merkleroot/outcome.go:195-224 | progress: once the honest oracles see the chains of all pending roots past the recorded numbers, and enough report on them, the report counts as transmitted |
| `Consensus.ValidateFChain` | internal/plugincommon/validations.go:11-18 | accepts exactly positive values; zero and negative ones are refused |
| `MerkleRootObservation.ValidateObservedMerkleRoots` | commit/merkleroot/validate_observation.go:49-93 | accepts exactly lists with one well-formed root per supported chain at most |
| `MerkleRootObservation.ValidateObservedOnRampMaxSeqNums` | commit/merkleroot/validate_observation.go:95-120 | accepts exactly lists with supported chains, none twice |
| `MerkleRootObservation.ValidateObservedOffRampMaxSeqNums` | commit/merkleroot/validate_observation.go:122-154 | accepts exactly lists without repeated chains and zeros, and non-empty ones only from readers of the destination |
| `MerkleRootObservation.ValidateObservation` | commit/merkleroot/validate_observation.go:16-47 | accepts exactly what all four checks accept |
| `MerkleRootObservation.ObserveMerkleRoots` | commit/merkleroot/observation.go:479-570 | exactly the roots of supported ranges whose messages were read without a gap, in order and without extras |
| `MerkleRootObservation.GetObservation` | commit/merkleroot/observation.go:112-137 | the observation has what the state calls for, as it was read, and nothing else; roots are exactly those of the selected ranges |
| `MerkleRootObservation.HonestObservationIsValid` | commit/merkleroot/validate_observation.go:16-47 | an honest observation passes all checks exactly if what was read is valid: positive f, supported chains, no repeats and zeros, roots and on-ramps that are not empty |
| `MerkleRootSafety.AgreedFIsHomeF` | commit/merkleroot/outcome.go:252-255 | with at most F faulty observers an agreed f is the home chain's |
| `MerkleRootSafety.AgreedRootIsWitnessed` | commit/merkleroot/outcome.go:265-275 | more honest oracles than the chain may have faulty ones observed an agreed root |
| `MerkleRootSafety.AgreedRootHasSelectedRange` | commit/merkleroot/observation.go:494-565 | an agreed root has exactly the range selected for its chain |
| `MerkleRootSafety.AgreedOffRampIsBracketed` | commit/merkleroot/outcome.go:291-314 | an agreed off-ramp number lies between two that honest destination readers observed |
| `MerkleRootSafety.AgreedOffRampIsPositive` | commit/merkleroot/validate_observation.go:142-144 | no agreed off-ramp number is zero |
| `MerkleRootSafety.AgreedOnRampIsSeen` | commit/merkleroot/outcome.go:276-280 | an honest reader of the chain has seen the agreed on-ramp number or a higher one |
| `MerkleRootRuns.SelectionIsGood` | commit/merkleroot/outcome.go:80-148 | selected ranges start at the recorded off-ramp number, which lies between two honest reads, have between one and the permitted number of messages, were seen by an honest reader, and are strictly by chain |
| `MerkleRootRuns.GeneratedIsBuiltFromSelection` | commit/merkleroot/outcome.go:151-172 | a generated report comes straight after a selection and has roots of its ranges only |
| `MerkleRootRuns.InFlightIsCarriedOver` | commit/merkleroot/outcome.go:233-240 | an outcome in flight has the roots and off-ramp numbers of the pending one before it and one attempt more in 32 bits, below the limit |
| `MerkleRootRuns.PendingRootsMatchSelection` | commit/merkleroot/outcome.go:80-241 | in every run every root of a pending report covers exactly the range that one earlier selection has for its chain, with carried start, permitted size, honest backing and strict order |
| `MerkleRootRuns.AttemptsCountUp` | commit/merkleroot/outcome.go:226-240 | with a limit of at most 2^32, n rounds of waiting spend n attempts and stay below the limit |
| `MerkleRootRuns.WaitsEnd` | commit/merkleroot/types.go:158-175 | with a limit of at most 2^32 no run waits for more than max(1, limit) rounds, whoever lies |
| `MerkleRootWaits.WaitsEndExactly` | commit/merkleroot/outcome.go:226-240 | waits are bounded like this in every run exactly if the limit is at most 2^32, since attempts are encoded with 32 bits |
| `MerkleRootRuns.TransmittedMeansAdvanced` | commit/merkleroot/outcome.go:195-224 | with several reports, transmitted means that for each pending root an honest reader saw the off-ramp move past the recorded number |
| `CommitReports.ValidateRoots` | commit/report.go:145-166 | accepts exactly roots that are not empty and ranges that are not reversed |
| `CommitReports.IsFresh` | commit/report.go:256-320 | no error exactly if the latest price round could be read and, with roots, the next numbers could be read, chains are distinct and every root starts at the off-ramp's next number; without roots, if the round is newer than the latest price round |
| `CommitReports.ValidateReport` | commit/report.go:123-213 | accepts exactly no report at all, and reports that decode and are not empty, with well-formed roots, not cursed, for a supported destination with the right digest, and not stale |
| `CommitAcceptance.AcceptedExactly` | commit/report.go:123-213 | the same root by root over both lists of a report: the answers, no empty root, no reversed range, one root per chain across both lists, each starting at the off-ramp's next number |
| `CommitAcceptance.CountersAfter` | commit/report.go:256-320 | what an accepted report does to the off-ramp: the counter of every chain with a root, blessed or not, is the number after its range, and all others stay |
| `CommitReports.CommittedRangesTile` | commit/report.go:256-320 | over any history of submissions the committed ranges of a chain tile the numbers from its initial to its current counter |
| `CommitReports.TilesCoverOnce` | commit/report.go:309-317 | tiles hold each number between their ends exactly once and no other |
| `CommitReports.CommittedExactlyOnce` | commit/report.go:256-320 | a number is committed exactly once if it lies between both counters, and never otherwise |
| `CommitSystem.PendingRootsWellFormed` | commit/report.go:145-166 | every pending root of a run passes the checks on roots |
| `CommitSystem.OwnReportsAccepted` | commit/report.go:123-213 | a report of a run's pending roots is accepted exactly if the other answers are favourable, both reads succeed and the off-ramp has not moved from the recorded numbers |
| `CommitSystem.NotCommittedTwice` | commit/report.go:301-318 | once a root is applied, no report with a root of the same chain and start is accepted |
| `CommitHistory.CountersGrow` | commit/report.go:256-320 | over a history the off-ramp's counters never go down |
| `CommitHistory.PendingStartIsCounted` | commit/merkleroot/outcome.go:80-148 | a pending root never starts below the counter its chain began with |
| `CommitHistory.TransmittedMeansCommitted` | commit/merkleroot/outcome.go:195-224 | with several reports and honest reads of the off-ramp as it is or was, ReportTransmitted means that the first number of every pending root has been committed, and once |
| `CommitSingle.TransmittedMeansMoved` | commit/merkleroot/outcome.go:195-217 | with one report, ReportTransmitted means that an honest reader saw some recorded chain move past its number |
| `CommitSingle.TransmittedMeansSomeCommitted` | commit/merkleroot/outcome.go:195-217 | in every run beside the history it reads, the recorded number of some chain has then been committed, and once |
| `CommitSingle.AboutRootsExactly` | commit/merkleroot/outcome.go:195-217 | in every round that ends the wait an honest reader saw the chain of a pending root move, exactly if every recorded chain that can move has a pending root |
| `CommitSingleRun.TransmittedUncommitted` | commit/merkleroot/outcome.go:195-217 | a run that ends with ReportTransmitted while nothing of the chain of its one pending root has been committed |
| `Prices.Observe` | commit/plugin.go:289-310 | while prices are in flight no price is observed but the round on chain is; otherwise the other way round |
| `Prices.AgreeOnDestF` | commit/tokenprice/outcome.go:25-32 | an f for the destination exactly if it alone has 2F + 1 votes |
| `Prices.GetMainOutcome` | commit/plugin.go:549-593 | prices in flight are dropped, confirmed or kept with one check less, according to the f-th smallest round on chain |
| `Prices.Outcome` | commit/plugin.go:491-533 | prices agreed in this round are in flight from now on |
| `PriceRecords.RecordedExactly` | commit/plugin.go:523-533 | with nothing in flight a round puts its number in flight, with all checks to come, exactly if some token price is selected and 2F + 1 oracles name one f in their token price observations, or the same for gas prices and chain fee observations |
| `PriceRecords.GasAloneInFlight` | commit/plugin.go:523-533 | a run in which gas prices alone are in flight |
| `PriceRecords.KeptExactly` | commit/plugin.go:549-593 | prices stay in flight, with one check less, exactly if checks remain, an f is agreed and more than f oracles see an older round on chain; they count as seen exactly if more than f see a round and no more than f an older one; else they are given up |
| `Prices.NoPricesWhileInFlight` | commit/plugin.go:298-310 | while prices are in flight up to F faulty oracles cannot get any price agreed |
| `Prices.StepIsLink` | commit/plugin.go:523-533 | a round leaves nothing in flight, or its own prices if nothing was, or the awaited ones with one check less |
| `Prices.InFlightNeverReplaced` | commit/plugin.go:523-533 | a round in flight is never replaced by another one directly |
| `Prices.RemainingBounded` | commit/plugin.go:589-592 | with R retries, 0 <= R < 2^31, the remaining checks are between 0 and R in every outcome of a run |
| `Prices.ChecksCountDown` | commit/plugin.go:589-592 | while something stays in flight it is the same round, and every outcome spends one of the checks left in 32 bits |
| `Prices.InFlightIsBounded` | commit/plugin.go:549-593 | with R retries nothing is in flight for more than R mod 2^32 + 1 consecutive outcomes |
| `PriceQuorum.CheckIsTrue` | commit/plugin.go:575-592 | with n > f votes and at most F faulty oracles: prices are kept only if an honest oracle still sees an older round, given F <= f, and confirmed only if an honest one has seen them, given n >= f + F + 1 |
| `PriceQuorum.FaultyKeep` | commit/plugin.go:575-592 | if F > f, a round in which f + 1 faulty votes keep prices that no honest oracle still waits for |
| `PriceQuorum.FaultyConfirm` | commit/plugin.go:575-587 | with n <= f + F votes, a round in which faulty ones confirm prices that no honest oracle has seen |
| `PriceQuorum.KeptIsTrueExactly` | commit/plugin.go:575-592 | in every round with n > f votes, prices are kept only if an honest oracle still sees an older round, exactly if F <= f |
| `PriceQuorum.SeenIsTrueExactly` | commit/plugin.go:575-587 | in every round with n > f votes, prices count as on chain only if an honest oracle has seen them, exactly if n >= f + F + 1 |
| `PriceWaits.NegativeRetriesWaitLong` | commit/plugin.go:557-560 | with minus one retries a price can stay in flight for 2^32 - 1 outcomes after the first and no longer |
| `PriceWaits.WaitsExactly` | commit/plugin.go:523-533 | some run keeps a price in flight for n outcomes after the first exactly if n is at most the number of retries modulo 2^32 |
| `PackedFee.Ones` | commit/chainfee/observation.go:144-148 | setting the bits one by one gives 2^n - 1 |
| `PackedFee.FromPackedFee` | commit/chainfee/observation.go:144-156 | mask and shift give remainder and quotient by 2^112 |
| `PackedFee.PackUnpacked` | commit/chainfee/outcome.go:368-371 | packing an unpacked number gives it back, for every number and width |
| `PackedFee.UnpackPacked` | commit/chainfee/outcome.go:368-371 | unpacking a packed pair gives it back exactly if the execution fee fits its bits; then the whole fits twice the bits exactly if the other fee fits |
| `PackedFee.FeeRoundTrip` | commit/chainfee/observation.go:144-156 | both round trips for 112 bits |
| `ExecValidation.ValidateObservedSequenceNumbers` | execute/plugin_functions.go:229-259 | accepts exactly reports with distinct roots, disjoint ranges and executed numbers in range, per chain |
| `ExecValidation.ValidateMessagesConformToCommitReports` | execute/plugin_functions.go:190-225 | accepts exactly if every number of every range is observed and the totals agree |
| `ExecValidation.CountCheckIsExact` | execute/plugin_functions.go:190-259 | given disjoint ranges the total count decides: it agrees exactly if the observed numbers of every chain are the union of its ranges |
| `ExecValidation.CountCheckNeedsDisjointness` | execute/plugin_functions.go:217-222 | with two equal ranges the count lets a message outside them pass |
| `ExecValidation.ValidateHashesExist` | execute/plugin_functions.go:153-185 | accepts exactly one non-empty hash per observed message and no others |
| `ExecValidation.ValidateTokenDataObservations` | execute/plugin_functions.go:123-150 | accepts exactly token data for the observed messages and no others |
| `ExecValidation.CheckReportsEligibility` | execute/plugin_functions.go:82-102 | in the messages phase: accepts exactly reports with messages only from supported chains and, as the generic loop at lines 53-59 asks, under their own chain |
| `ExecValidation.ValidateCommitsObservation` | execute/plugin_functions.go:30-81 | in the phase that agrees on commit reports: accepts exactly observations without messages, with positive f, roots that are not empty only from readers of the destination, reports under their own chain, and valid sequence numbers |
| `ExecValidation.CheckReadingEligibility` | execute/plugin_functions.go:105-120 | accepts exactly messages from supported chains |
| `ExecValidation.ValidateMessagesObservation` | execute/plugin.go:386-429 | accepts exactly what all checks of the messages phase accept; then the observed numbers are exactly the union of the ranges |
| `ExecObservation.MsgsConformToSeqRange` | execute/plugin_functions.go:263-278 | true exactly if there are as many different numbers as the length says and none of the range is missing, also for reversed ranges |
| `ExecObservation.ConformsExactly` | execute/plugin_functions.go:261-278 | for a range that is not reversed that means to have exactly its numbers, of which there are fewer than 2^63 |
| `ExecObservation.ReadMessagesForReport` | execute/observation.go:306-326 | messages exactly if the read succeeds and conforms to the range |
| `ExecObservation.AddHashes` | execute/observation.go:424-436 | a hash of a message with that number under every number of the report, everything else unchanged, or a message of the report that has no hash |
| `ExecObservation.GoodObservationIsValid` | execute/plugin_functions.go:105-259 | the checks accept a good observation exactly if none of its hashes is empty and every f is positive |
| `ExecFilling.AddReport` | execute/observation.go:410-441 | the report is added with stubs for all its messages, all else is unchanged and nothing becomes a full message; or one of its messages has no hash |
| `ExecFilling.EligibleIsGood` | execute/observation.go:448-453 | a number that its report does not list as executed is listed by no other report of its chain |
| `ExecFilling.PutMessage` | execute/observation.go:455-460 | the message and its token data stand under its number; nothing else is touched, and the observation stays good |
| `ExecFilling.TakeOut` | execute/observation.go:467-473 | the stub is back, one full message less, nothing else is touched |
| `ExecMessages.FillMessages` | execute/observation.go:445-474 | under every number of the report stands what the handled messages give (see WholeExactly and CutExactly), or filling stopped at an eligible message with 100 in or an encoding that would be too long, or putting in one of its messages made the observation impossible to encode |
| `ExecMessages.GetMessagesObservation` | execute/observation.go:354-488 | a good observation made of what was read with at most 100 full messages: complete, or cut off at a message where a limit was reached; or a message of an included report that cannot be hashed or encoded |
| `ExecEntries.WholeExactly` | execute/observation.go:386-474 | if it was not cut off, under every number of every included report stands the last message that is neither in flight nor listed as executed, with its token data, or, if there is none, just id and number of its last message without token data; in any case that message's hash; at most 100 messages are of the first kind |
| `ExecEntries.CutExactly` | execute/observation.go:455-487 | if it was, it was at a message neither in flight nor executed, with 100 such messages before it or an encoding that it makes too long; earlier reports are complete, the report has what the messages before the cut-off give, and the message itself is a stub |
| `ExecEntries.SentExactly` | execute/observation.go:445-460 | a message with a number of its own stands in full with its token data exactly if it is neither in flight nor executed |
| `ExecEntries.EntryIsRead` | execute/observation.go:329-336 | every entry of an honest observation has number and id of a message that was read for its number, and its content or none |
| `ExecMessages.ResultIsAccepted` | execute/observation.go:386-487 | wherever it was cut off, all checks accept the observation exactly if no hash is empty and every f read is positive, and no full message is in flight or executed |
| `ExecMessageConsensus.PrepareValidators` | execute/plugin_functions.go:496-529 | every chain with an f has a counter of its own that has seen exactly the votes for that chain |
| `ExecMessageConsensus.PickMessage` | execute/plugin_functions.go:446-486 | the only winner, or the one of two that is not pseudo-deleted if the other is; nothing otherwise |
| `ExecMessageConsensus.ComputeMessageObservationsConsensus` | execute/plugin_functions.go:418-494 | exactly the picks of every chain with an f, by header number, and no empty map |
| `ExecMessageConsensus.MessageConsensusUnique` | execute/plugin_functions.go:418-494 | the votes determine the result |
| `ExecMessageConsensus.StubHasMoreVoters` | execute/plugin_functions.go:516-524 | whoever votes for a message votes for its stub |
| `ExecMessageConsensus.ChosenExactly` | execute/plugin_functions.go:418-529 | a stub is chosen exactly if it is the only winner of its number, a message exactly if the winners are it and its stub; nothing else is ever chosen |
| `ExecMessageCount.ConsensusByCount` | execute/plugin_functions.go:418-529 | a message is agreed under a number exactly if f + 1 oracles report its id with that number and no other id has as many, f + 1 report exactly it or it has no content, and no other message with content has f + 1 reporters |
| `ExecRounds.GetConsensusFChain` | execute/plugin_functions.go:908-926 | an f for a chain exactly if it alone has 2F + 1 votes |
| `ExecRounds.AgreedFIsHomeF` | execute/plugin_functions.go:908-926 | with at most F faulty observers an agreed f is the home chain's |
| `ExecMessageSafety.ChosenHasHonestVote` | execute/plugin_functions.go:418-529 | in every round whose observations the checks accept, an honest oracle voted for everything chosen |
| `ExecMessageSafety.HonestAgreementDecides` | execute/plugin_functions.go:455-480 | if the honest oracles agree on a message, it is chosen exactly with f + 1 votes, its stub exactly with f + 1 votes for the stub and not for it, whatever faulty ones add |
| `ExecMessageSafety.ReadersAgree` | execute/observation.go:386-487 | observations built from the same messages agree however they were cut off |
| `ExecHashConsensus.CountHashes` | execute/plugin_functions.go:670-682 | the table has exactly the number of votes for every hash at every place |
| `ExecHashConsensus.WithWithout` | execute/plugin_functions.go:700-714 | entering twice and deleting leaves no trace, not even an empty map |
| `ExecHashConsensus.PickHash` | execute/plugin_functions.go:693-716 | the hash that alone has f + 1 votes is entered; with none or several nothing changes, in whatever order they come |
| `ExecHashConsensus.ComputeMessageHashesConsensus` | execute/plugin_functions.go:663-723 | an entry exactly where f is known and one hash alone has f + 1 votes, and no empty map |
| `ExecHashConsensus.HashConsensusUnique` | execute/plugin_functions.go:684-722 | the votes determine the result |
| `ExecHashConsensus.VotesAreOracles` | execute/plugin_functions.go:672-682 | with one observation per oracle votes are oracles |
| `ExecHashConsensus.HashHasHonestVote` | execute/plugin_functions.go:694-698 | a hash with f + 1 votes has an honest one |
| `ExecMessageSafety.HonestHashDecides` | execute/plugin_functions.go:663-723 | if the honest oracles agree on a hash, it is the consensus with f + 1 votes and there is none without, in every round whose observations the checks accept |
| `ExecCommitVotes.AggregateMerkleRootObservations` | execute/plugin_functions.go:611-643 | the tables have exactly the votes for every root data and every executed number |
| `ExecCommitVotes.VotesAreOracles` | execute/plugin_functions.go:617-640 | for accepted observations the counts are numbers of different oracles |
| `ExecCommitConsensus.KeptRoots` | execute/plugin_functions.go:542-558 | exactly the root data with f + 1 votes whose merkle root no other such data has |
| `ExecCommitConsensus.ExecutedNumbers` | execute/plugin_functions.go:568-576 | exactly the numbers with f + 1 votes, strictly ascending |
| `ExecCommitConsensus.ComputeCommitObservationsConsensus` | execute/plugin_functions.go:535-605 | one report for every kept root under its chain, none else, each with exactly its agreed executed numbers, by start of range |
| `ExecCommitCount.AgreedByCount` | execute/plugin_functions.go:535-605 | a report is in the result exactly if f + 1 oracles list one with its on-ramp, timestamp, block, root and range, and on no chain as many list other data with the same merkle root |
| `ExecCommitCount.ExecutedByCount` | execute/plugin_functions.go:568-593 | its executed numbers are exactly those that f + 1 oracles list as executed in such a report, ascending, and it carries nothing else |
| `ExecCommitSafety.RootsPairwiseDistinct` | execute/plugin_functions.go:554-558 | no merkle root occurs twice in the result, on one chain or on two |
| `ExecCommitSafety.ReportsAreVoted` | execute/plugin_functions.go:535-643 | f + 1 oracles stand behind every report; its executed numbers are strictly ascending, in range, and exactly those that f + 1 oracles report |
| `ExecCommitQuorum.NonEmptyRootsExactly` | execute/plugin_functions.go:64-81 | in every round on commit reports every agreed root of a chain that is not empty has an honest reporter, exactly if F or the destination's f is at most the f of the chain |
| `ExecCommitQuorum.EmptyRootsExactly` | execute/plugin_functions.go:71-73 | the same for empty roots, exactly if F is at most the f of the chain |
| `ExecCommitQuorum.NonEmptyRangesHonest` | execute/plugin_functions.go:190-225 | in every round on messages every agreed root with a non-empty range has an honest reporter |
| `ExecCommitQuorum.EmptyRangesExactly` | execute/plugin_functions.go:190-225 | one with an empty range has one exactly if F is at most the f of its chain |
| `ExecCommitQuorum.AgreedIsWitnessed` | execute/plugin_functions.go:543-576 | if the supported roots meet these conditions, an honest oracle reports every agreed root and every number agreed to be executed |
| `ExecCommitQuorum.AgreedReportsAreGood` | execute/plugin_functions.go:535-605 | if they do and the honest oracles see one chain, agreed reports have non-empty disjoint ranges, distinct roots and executed numbers in range |
| `ExecCommitOrder.DeterminedExactly` | execute/plugin_functions.go:542-599 | the votes determine the result exactly if no two kept roots of one chain start at the same number |
| `ExecCommitOrder.TwoResults` | execute/plugin_functions.go:597-599 | five accepted observations with two different results |
| `ExecCommitQuorum.HonestConsensusDetermined` | execute/plugin_functions.go:535-605 | if the honest oracles see one chain and the supported roots meet the conditions above, there is one result |
| `ExecCommitViews.FaultyDestReaders` | execute/plugin_functions.go:543-599 | a round in which two faulty readers of the destination, within its f, get a root of a chain with f = 1 agreed that no honest oracle reports, so that there are two results and the agreed ranges overlap |
| `ExecNonces.ComputeNoncesConsensus` | execute/plugin_functions.go:830-871 | a nonce for a sender exactly if more than f observed one, namely the f-th smallest |
| `ExecNonces.NonceIsBracketed` | execute/plugin_functions.go:854-862 | with at most F faulty oracles an agreed nonce is not below every honest one if F <= f, and not above every honest one from f + F + 1 observations on |
| `ExecNonces.FaultyDeflate` | execute/plugin_functions.go:854-862 | if F > f, f + 1 faulty observations can push the agreed nonce of any sender below every honest one |
| `ExecNonces.FaultyInflate` | execute/plugin_functions.go:854-862 | with n <= f + F observations faulty ones can push it above every honest one |
| `ExecNonces.NeverTooLowExactly` | execute/plugin_functions.go:854-862 | with n > f observations an agreed nonce is never below every honest one exactly if F <= f |
| `ExecNonces.NeverTooHighExactly` | execute/plugin_functions.go:854-862 | and never above every honest one exactly if n >= f + F + 1 |
| `ExecRanges.ComputeRanges` | execute/plugin_functions.go:287-315 | the result is that of the one pass `Merge`, with 64-bit addition |
| `ExecRanges.MergeCorrect` | execute/plugin_functions.go:282-315 | on non-empty ranges sorted by start: an error exactly if two overlap, else non-adjacent disjoint ranges with exactly the same numbers |
| `ExecRanges.MergeExactlyCorrect` | execute/plugin_functions.go:299-301 | without any assumption on the ends: when exactly that holds |
| `ExecRanges.WrapHidesOverlap` | execute/plugin_functions.go:299-301 | two overlapping ranges that give no error and lose numbers |
| `ExecRanges.MergeIsMinimal` | execute/plugin_functions.go:282-284 | every family of ranges with the same numbers has at least as many members |
| `ExecRanges.MergeIsUnique` | execute/plugin_functions.go:282-315 | the numbers alone determine the merged ranges |
| `ExecClassification.CombineReportsAndMessages` | execute/plugin_functions.go:373-397 | for any list and ranges: fully executed are the reports with as many listed numbers in range as their length says, the others are kept with theirs sorted and appended; nothing changes for an empty list |
| `ExecClassification.CountIsMeaning` | execute/plugin_functions.go:382-394 | on non-empty ranges and a list without repetitions fully executed are exactly the reports all of whose numbers are listed |
| `ExecClassification.ClassifyChain` | execute/plugin.go:243-261 | finalized exactly if the whole range is finalized, unfinalized exactly if it is in unconfirmed minus finalized, else remaining and marked |
| `ExecClassification.RemoveUnconfirmedAndFinalizedMessages` | execute/plugin.go:234-263 | the same for every chain, each chain handled once |
| `ExecClassification.InOneBucket` | execute/plugin.go:251-260 | a report is in its bucket as often as it occurs and in no other |
| `ExecClassification.BucketsPartition` | execute/plugin.go:234-263 | the three buckets together are the reports, none lost and none twice |
| `ExecClassification.RemainingListsExecuted` | execute/plugin_functions.go:391-393 | a remaining report lists each finalized or unconfirmed number of its range once and no other, so one that is all executed but mixed remains with all its numbers |
| `ExecOutcome.FillReport` | execute/outcome.go:145-156 | messages, hashes and token data of the numbers with a message, in order |
| `ExecOutcome.FillReports` | execute/outcome.go:145-162 | one filled report for every report, also for those without messages |
| `ExecOutcome.GetMessagesOutcome` | execute/outcome.go:127-167 | nothing exactly if hashes or token data do not go with the messages, else each report of each chain filled, as often as it occurs |
| `ExecOutcome.FilledIsAligned` | execute/outcome.go:146-155 | the three lists go together exactly if the report came in without hashes and token data |
| `ExecOutcome.OutcomeIsAligned` | execute/outcome.go:127-167 | after the consensus the lists of every report are of one length, place by place about one number, with header numbers in range and strictly ascending |
| `ExecAlreadyExecuted.GetSeqNrRangesBySource` | execute/plugin.go:786-813 | the ranges hold exactly the numbers between the lowest and the highest message of a report of their chain |
| `ExecAlreadyExecuted.CheckAlreadyExecuted` | execute/plugin.go:730-782 | refused exactly if every number in every span is executed |
| `ExecAlreadyExecuted.UnexecutedIsAccepted` | execute/plugin.go:730-782 | when refused, every single message of the report is executed |
| `FastCurse.SubjectRoundTrip` | deployment/fastcurse/common.go:25-41 | decoding a subject gives the selector back, and no selector has the global subject |
| `FastCurse.ValidateBidirectionalLaneActions` | deployment/fastcurse/validation.go:24-59 | accepts exactly if every lane action has a version and one in the opposite direction |
| `FastCurse.GroupSubjects` | deployment/fastcurse/product.go:120-193 | the grouping of the actions one after the other, or nothing; GroupedExactly and GroupIsGrouping say when and what |
| `FastCurse.GroupIsGrouping` | deployment/fastcurse/product.go:149-189 | a list for exactly the chains that are acted on: the global subject alone after a global action, else subjects of lane actions, each once, covering every lane |
| `FastCurse.RefusedExactly` | deployment/fastcurse/product.go:123-181 | actions are refused exactly if one of them is the first to fail a check |
| `FastCurseExact.GroupedExactly` | deployment/fastcurse/product.go:120-193 | actions can be grouped exactly if each is not both global and against a subject, has a known family with an adapter and, unless it is against its own chain, an adapter that initializes on a chain that can be cursed; a lane action without an earlier global one on its chain also needs a connected subject chain and a subject adapter |
| `FastCurseExact.AcceptedExactly` | deployment/fastcurse/fastcurse.go:183-223 | a configuration is carried out exactly if its actions can be grouped, every lane action has a version and there is one in the opposite direction |
| `FastCurseApply.FilterSubjectsToCurse` | deployment/fastcurse/fastcurse.go:151-181 | cursing what is left over has the same effect as cursing everything, unless a global curse is active; without force nothing is cursed twice |
| `FastCurseApply.ApplyCurse` | deployment/fastcurse/fastcurse.go:183-223 | every chain has its old curses and its listed subjects, or just the old ones if a global curse is active and force is off; refused exactly for a one-way or unversioned configuration or a failed check |
| `FastCurseApply.ApplyUncurse` | deployment/fastcurse/fastcurse.go:225-278 | exactly the listed subjects are gone, forced or not; refused exactly for a one-way or unversioned configuration or a failed check |
| `FastCurseExact.CursedExactly` | deployment/fastcurse/fastcurse.go:151-223 | after a curse a subject is cursed on a chain exactly if it was before or was asked for, the latter unless force is off under a global curse |
| `FastCurseExact.UncursedExactly` | deployment/fastcurse/fastcurse.go:225-278 | after uncursing a subject is cursed exactly if it was before and was not asked for, with or without force |
| `FastCurseApply.BothEndsBlocked` | deployment/fastcurse/fastcurse.go:183-223 | after a successful curse both ends of every lane of the configuration block it |
| `FastCurseApply.CurseExactly` | deployment/fastcurse/fastcurse.go:183-223 | for every pair: after a curse one chain blocks the other exactly if it did before, was cursed globally, or for a lane with that subject |
| `FastCurseApply.GenericIsFaithful` | deployment/fastcurse/common.go:29-33 | with the generic encoding different chains have different subjects, none of them the global one |
| `FastCurseApply.CurseOneWayExactly` | deployment/fastcurse/fastcurse.go:183-223 | a curse leaves a pair blocked on both ends or none exactly if the configuration lists the lane, or old curses and global actions together reach both ends or none |
| `FastCurseApply.GlobalAloneIsOneWay` | deployment/fastcurse/validation.go:27-30 | a global action alone is accepted and leaves every lane of the chain cursed one way |
| `FastCurseApply.OnlyAskedIsCursed` | deployment/fastcurse/product.go:156-189 | nothing is uncursed by cursing, and whatever is new was asked for |
| `FastCurseApply.CurseTwice` | deployment/fastcurse/fastcurse.go:151-181 | cursing again changes nothing |
| `FastCurseApply.FormCurseConfigForGlobalCurse` | deployment/fastcurse/fastcurse.go:68-129 | a configuration exactly if all adapters answer: the global action of every selected chain and both directions of each of its lanes, nothing else; it is accepted exactly if its lane actions have versions |
| `FastCurseApply.GloballyCursed` | deployment/fastcurse/fastcurse.go:131-143 | after a global curse the chain has the global subject cursed and every connected chain blocks it |
| `FastCurseApply.UncurseExactly` | deployment/fastcurse/fastcurse.go:239-262 | for every pair: after uncursing one chain still blocks the other exactly if, with a global action on it, the other's subject was cursed there, and without one, a global curse was, or a subject that was not asked for |
| `FastCurseApply.UncurseOneWayExactly` | deployment/fastcurse/fastcurse.go:225-278 | uncursing leaves a pair cursed one way exactly if what still blocks it is there on one end only |
| `FastCurseApply.GlobalUncurseLeavesOneWay` | deployment/fastcurse/product.go:156-168 | cursing a lane, then one end globally, then undoing the latter leaves the lane cursed one way |

## Left out

- Token data consensus (execute/plugin_functions.go:726-826): it counts like the consensus on messages, one level deeper; it would add members of the same kind.
- The execute report builder, the filter phase, nonce checks and the sorting of outcomes: not needed for what is proved here.
- The caches, the discovery processor, asynchronous observers with their tickers and locks, metrics and logging.
- Merkle tree construction, hashing and the codecs: their results are inputs.
- Price medians, deviation checks and heartbeats: how many prices would be selected is an input of a round.
- The older price countdown (commit/plugin_old.go): the current one is modelled.
- How curse checks, config digests, decoding and the support of the destination come about in validateReport: their answers are inputs.
- The order in which concurrent reads finish (commit/merkleroot/observation.go:494-568): the roots are collected in the order of the ranges; what is stated is the set of roots.
- The maps of the execute observation are values that methods return changed; sharing of Go maps and slices between variables, and appending to a slice that shares its array, is not modelled.
- The order of commit reports before messages are read (execute/observation.go:377-379): what is stated holds for every order.
- ExecFilling.AddReport: the stubs, hashes and token data of a report are entered in three passes instead of one.
- ExecCommitConsensus.ComputeCommitObservationsConsensus: the base64 form of an on-ramp address stands for the address itself, so decoding it never fails.
- FastCurseApply.ApplyCurse: curses take effect at once; that proposals are signed and executed later is not modelled, nor are errors while reading curses.
- MerkleRootObservation.ValidateObservation: the f values of an observation are natural numbers, so negative ones are refused by ValidateFChain only.
- UnpackPacked: fees are not negative.
