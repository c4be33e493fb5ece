# Verified model of polybot

This project models, in Dafny, the parts of polybot whose correctness is a statement about every run: the live
order-book stream, durable chart markers, release promotion on a host, terminal wakes under nested transactions,
replay coverage, exact money arithmetic, run admission, event history, stream plans, the tracked-market registry,
bounded trend state and the publication of a trimmed recording. Each component has

- a specification as values: a state, a step, and runs of steps;
- where the program changes objects in place, a class whose methods carry the same fields and branches and are proved
  to agree with that specification;
- theorems about all runs or all inputs of the specification.

`dafny verify dfyconfig.toml` checks everything.

| files | component |
|---|---|
| `OrderBooks`, `MarketStream`, `LiveStream` | owned book depth, gaps and recovery of one market subscription |
| `StreamDeliveries`, `StreamAccount` | what the subscription owns and tells, read off its deliveries alone |
| `StreamSafety`, `ConsumerView`, `GapLedger` | what every run of it keeps, for its consumers and its counters |
| `MarkerQueue`, `MarkerDelivery`, `MarkerAcceptance`, `RuntimeObserver` | trade markers sampled, held, retried and acknowledged through a bounded queue |
| `Deployment`, `DeploymentSafety`, `DeploymentCrashes`, `DeploymentRetry`, `DeploymentHost` | a journal and three pointers changed one directory operation at a time |
| `TerminalWakes`, `TerminalSession` | wakes staged under savepoints in one flat deque |
| `CoverageGaps`, `CoverageCursor` | gap union, boundary cursors, and the replay clock that drives them |
| `TakerFee`, `TakerFeeValue`, `Positions`, `Drawdown` | money: decimal fee, signed positions, online drawdown |
| `RunAdmission`, `RunLimits` | launch, claim and lifecycle of runs |
| `EventPaging`, `EventHistory`, `EventReplay` | backward pages and forward replay of one append-only log |
| `StreamPlan`, `TrackedMarkets`, `ProbabilityTrend`, `TrimPublish` | plan compilation, registry, trend state, trim |
| `Common` | option and result shapes |

## Where the program falls short of the plain statement

Each is kept as the code has it, with the exact condition proved.

- Taker fee: a finite input can overflow the decimal exponent range (`TakerFee.HugeExponentsFail`); the fee is exact
  if and only if `TakerFee.Fits` holds (`TakerFee.FeeRoundsOnce`).
- Drawdown fraction: with equity below zero after a positive sample the fraction exceeds one
  (`Drawdown.FractionWithinOne`) and need not be the largest relative fall (`Drawdown.BelowZeroFractionDiffers` has the
  input); exactly when it is: `Drawdown.FractionIsLargestExactly`, and sample by sample `Drawdown.NextSampleExactly`.
- Promotion: the journal is re-read without being synced. A process killed between the rename of the ACTIVATED entry
  and the sync of the directory leaves an entry that is visible but not durable; if the next activation resumes that
  promotion and the machine then crashes, the replaced compose file can survive without the entry
  (`DeploymentCrashes.KilledFirstActivationBreaks` has the input). Exactly when no crash can do so:
  `DeploymentCrashes.EveryImageIsGood`; that no other stop leads there: `DeploymentCrashes.OnlyOneStopIsUnsafe`.
- Prepared releases: runtime configuration that names images of its own makes the prepared attempt one that promotion
  will refuse (`DeploymentRetry.PreparedIsPromotable`). A fresh installation ignores those images, so repeating it is
  not recognized as already active (`DeploymentRetry.RepeatRestartsNothing`).
- Trim: a temporary file that was made but could not be closed or unlinked is not recorded and stays; an interrupt
  between an operation and the flag that records it leaves the backup of an unreplaced source, or takes away the
  backup of a replaced one; an interrupt in one cleanup step skips the rest (`TrimPublish.RecordingTrim.Trim` has the
  exact condition of each).
- Direction: with thresholds of zero, which the settings allow, a market that stands still is called up, for both
  outcomes (`ProbabilityTrend.StillMarketCallsUp` has the input); exactly then complementary observations do not
  call opposite directions (`ProbabilityTrend.ComplementCallsOpposite`).
- Event pages: a limit of zero ends the walk at once with rows left; exactly then the walk is incomplete
  (`EventHistory.WalkCompleteExactly`). The HTTP layer never passes it.

## Model

| member | source | states |
|---|---|---|
| StreamAccount.OwnedIsLastWritten | backend/src/polybot/polymarket/ws_market.py:98-259 | read off the list of deliveries alone: the stream ends exactly where a delivery ends it; until then a token has a book, and every side and price of it the size last written there by a book or change, exactly as the deliveries since the last gap affecting it say; and a market is held back exactly while a gap has hit it and a subscribed outcome has no book since |
| StreamAccount.DeliveryTells | backend/src/polybot/polymarket/ws_market.py:119-259 | what each delivery adds to the trace, from the deliveries so far alone: the book taken is the payload's own, the changes kept are all those to subscribed tokens with a book, in payload order; the gap names its reason and market; snapshots show the sizes owned, once each, in first-changed or index order; trade hints and resolutions carry their payload |
| StreamAccount.BaselinesAreBrought | backend/src/polybot/polymarket/ws_market.py:176-207 | the books a run takes are, in order, exactly the proper books of subscribed tokens among its deliveries, with their own bids and asks |
| StreamSafety.EverySnapshotIsGood | backend/src/polybot/polymarket/ws_market.py:98-259 | on every run, every snapshot yielded is a valid subscribed book, equals a from-scratch replay of the token's last baseline and all later taken deltas since its last affecting gap, and comes only after each subscribed token of its market has a baseline newer than that gap |
| StreamSafety.SnapshotWaitsForBaselines | backend/src/polybot/polymarket/ws_market.py:105-207 | between any gap and any later snapshot of an affected market lies an accepted baseline of every subscribed token of that market |
| StreamSafety.RunStateIsReplay | backend/src/polybot/polymarket/ws_market.py:98-259 | at every point of a run the owned depth of a token is the replay of its trace, present exactly while it has a baseline since its last gap, and a condition is held back exactly while a gap hit it and a subscribed token still lacks a baseline |
| StreamSafety.RunKeepsInv | backend/src/polybot/polymarket/ws_market.py:98-259 | the invariant behind the three rows above is kept by every step of every run |
| StreamSafety.FilterBarsMissingBaseline | backend/src/polybot/polymarket/ws_market.py:208-216 | the caller's filter (subscribed, with a baseline) makes the missing-baseline rejection of a delta unreachable |
| StreamSafety.RejectedDelta | backend/src/polybot/polymarket/book_projector.py:99-138 | a delta rejected at any of its tokens leaves every book of other conditions as it was and every book of its own condition dropped |
| ConsumerView.ConsumerSeesOwnedBooks | backend/src/polybot/polymarket/ws_market.py:195-238 | completeness: after every delivery, what a gap-honouring consumer last saw of a token is the owned book, and it has one exactly when the token has a baseline and its condition is not held back |
| GapLedger.GapsAreCounted | backend/src/polybot/polymarket/book_gaps.py:34-103 | over every run the gap counter and the last recorded gap agree with the gaps published; only an unsupported reason, which ends the stream, is counted without being published |
| MarketStream.OpenIsConsistent | backend/src/polybot/polymarket/ws_market.py:70-104 | a subscription opened over any markets fixes one consistent generation: both indices agree on which market owns each token |
| MarketStream.OpenHolds | backend/src/polybot/polymarket/ws_market.py:70-104 | a generation holds what was asked for and listed: the tokens subscribed, for each token the one market listed with it, for each condition the market listed for it last, and in the projector's index the tokens of those |
| OrderBooks.CandidateLevels | backend/src/polybot/polymarket/book_projector.py:106-123 | editing copies in order gives at every price level the last write of the delta to it, and otherwise the size owned before |
| OrderBooks.BookDepthProjector.constructor | backend/src/polybot/polymarket/book_projector.py:29-32 | a projector starts with no owned depth over its token index |
| OrderBooks.BookDepthProjector.Clear | backend/src/polybot/polymarket/book_projector.py:38-40 | forgets all depth and keeps market identity |
| OrderBooks.BookDepthProjector.InvalidateCondition | backend/src/polybot/polymarket/book_projector.py:42-50 | drops exactly the books of one condition |
| OrderBooks.BookDepthProjector.ApplyBaseline | backend/src/polybot/polymarket/book_projector.py:66-97 | an accepted baseline replaces one book; a rejected one changes nothing, with the first fault in checking order |
| OrderBooks.BookDepthProjector.ApplyDelta | backend/src/polybot/polymarket/book_projector.py:99-138 | all or nothing: on success every touched book becomes its edited copy, on the first fault in order no book changes |
| OrderBooks.BookDepthProjector.ConditionSnapshots | backend/src/polybot/polymarket/book_projector.py:151-167 | the available books of one condition, in index order |
| LiveStream.MarketBookGaps.Record | backend/src/polybot/polymarket/book_gaps.py:82-103 | counts before it looks the reason up; an unsupported reason is counted and raised without becoming the last gap |
| LiveStream.MarketBookGaps.InvalidateRejected | backend/src/polybot/polymarket/book_gaps.py:48-64 | drops one condition's depth and records a gap for it in one step |
| LiveStream.MarketBookGaps.InvalidateUnrouteable | backend/src/polybot/polymarket/book_gaps.py:66-80 | drops all depth and records an unaddressed gap |
| LiveStream.MarketStreamAdapter.SetMarkets | backend/src/polybot/polymarket/ws_market.py:70-75 | markets of which two share a token are refused and change nothing; any other list becomes the registry the next subscription copies, and that subscription is then refused only for its own token identifiers |
| LiveStream.MarketStreamAdapter.Events | backend/src/polybot/polymarket/ws_market.py:85-259 | the whole loop, as it changes projector, recovering set, drop counter and gap ledger, yields exactly what the specified run yields and stops where it raises |
| LiveStream.MarketStreamAdapter.Deliver | backend/src/polybot/polymarket/ws_market.py:119-155 | one delivery: drop-counter check and reset, then routing, agrees with one specified step |
| LiveStream.MarketStreamAdapter.TakeBaseline | backend/src/polybot/polymarket/ws_market.py:176-207 | baseline branch, including recovery output and leaving the recovering set |
| LiveStream.MarketStreamAdapter.TakeDelta | backend/src/polybot/polymarket/ws_market.py:208-238 | delta branch, including the filter, rejection and suppression while recovering |
| MarkerAcceptance.AcceptedExactly | backend/src/polybot/dashboard/history.py:45-60 | over every run the accepted trades are exactly those emitted before the close whose token was charted already or met fewer than twenty charted tokens, and had fewer than 256 markers waiting, in order, each counted to the lifetime its token was in; which tokens are charted and how often each was removed is read off the operations |
| MarkerAcceptance.TradeAccepted | backend/src/polybot/dashboard/history.py:53-60 | one trade: accepted exactly at those bounds, it appends its side to its own token's list and touches no other |
| MarkerAcceptance.TickDelivers | backend/src/api/events/observer.py:154-172 | a tick that finds room for the held sample and a fresh one leaves nothing held and nothing waiting: every accepted trade of a present lifetime has been admitted |
| MarkerAcceptance.FullTickHolds | backend/src/api/events/observer.py:154-172 | a tick that finds the queue full loses nothing: the held sample stays, or everything waiting is held |
| MarkerAcceptance.DrainFinishes | backend/src/api/events/observer.py:109-131 | from every state after the close, a drain that is not abandoned and whose writer keeps taking entries ends, within a number of turns fixed by the queue, with every accepted trade of a present lifetime admitted |
| MarkerDelivery.DeliveredThenPending | backend/src/api/events/observer.py:109-190 | in every run with any queue-full retries, drains, removals and reactivations: in a token's current lifetime the markers of admitted samples followed by those still pending are exactly the accepted trades in order, and an ended lifetime admitted a prefix of its trades |
| MarkerDelivery.OutstandingExtends | backend/src/polybot/dashboard/projection.py:133-157 | markers of an ended lifetime that sit in the outstanding sample still continue that lifetime's delivered prefix |
| MarkerDelivery.CompleteDrainDeliversAll | backend/src/api/events/observer.py:109-131 | a drain that ran to its end has delivered every accepted trade of every live token |
| MarkerDelivery.AdmittedIsQueued | backend/src/api/events/observer.py:109-190 | over every run, until a drain gives up, the markers counted as admitted are exactly those of the samples the writer has taken followed by those still queued, in order |
| MarkerDelivery.AcknowledgeEffect | backend/src/polybot/dashboard/projection.py:151-157 | acknowledging removes a sample's markers from exactly the lists it was taken from: a list of a new lifetime is never touched |
| MarkerDelivery.RunKeeps | backend/src/api/events/observer.py:64-190 | the invariant behind the rows above is kept by every step of every run |
| RuntimeObserver.DashboardHistory.ActivateToken | backend/src/polybot/dashboard/history.py:45-51 | at most twenty chart tokens, known tokens always accepted |
| RuntimeObserver.DashboardHistory.RecordTrade | backend/src/polybot/dashboard/history.py:53-60 | accepts exactly below the two bounds; an accepted side is appended to the token's own list object |
| RuntimeObserver.DashboardHistory.AcknowledgeMarkers | backend/src/polybot/dashboard/history.py:62-67 | deletes the first markers of a list in place and drops an emptied list |
| RuntimeObserver.DashboardHistory.RemoveTokens | backend/src/polybot/dashboard/history.py:69-79 | drops tokens with their lists |
| RuntimeObserver.DashboardProjection.SampleDurable | backend/src/polybot/dashboard/projection.py:133-149 | takes every pending marker into the sample and remembers the list objects they came from |
| RuntimeObserver.DashboardProjection.AcknowledgeSample | backend/src/polybot/dashboard/projection.py:151-157 | the object-identity test does what the specified list identity does |
| RuntimeObserver.WebRuntimeObserver.Enqueue | backend/src/api/events/observer.py:184-190 | puts only when the bounded queue has room |
| RuntimeObserver.WebRuntimeObserver.SampleDurable | backend/src/api/events/observer.py:154-172 | retry the held sample first, then take, offer and acknowledge or hold one new sample |
| RuntimeObserver.WebRuntimeObserver.EmitTrade | backend/src/api/events/observer.py:64-77 | a trade reaches the marker lists, overflowing exactly at the two bounds, and the durable events projected from it are offered to the queue in turn, only while running |
| RuntimeObserver.WebRuntimeObserver.EmitSettlement | backend/src/polybot/dashboard/projection.py:94-101 | a settlement removes its tokens |
| RuntimeObserver.WebRuntimeObserver.Drain | backend/src/api/events/observer.py:109-131 | one resumption of the shutdown drain: held sample, final sample, health, end mark |
| RuntimeObserver.WebRuntimeObserver.Abandon | backend/src/api/events/observer.py:97-107 | giving up the drain forgets the held sample and the queue |
| DeploymentCrashes.EveryCrashPointIsGood | scripts/deployment/state.py:96-124 | over any history of activations, each stopped or crashed after any directory operation, compose, manifest and current name one release, or the journal holds an ACTIVATED attempt and each of the three is its candidate's or what it was when that attempt was journaled |
| DeploymentCrashes.EveryImageIsGood | scripts/deployment/state.py:96-124 | over any history restarted from images in which each entry was lost or kept on its own, no crash at any operation can leave mixed pointers if and only if no activation resumes a promotion that changes compose while the journal entry naming it is still unsynced |
| DeploymentCrashes.SurvivesExactlyIfSafe | scripts/beta_release/activation.py:17-50 | the same of one activation from any host of such a history: which starts survive the loss of any unsynced entries |
| DeploymentCrashes.OnlyOneStopIsUnsafe | scripts/deployment/state.py:101-106 | from a safe start only one stop leaves an unsafe one: between the rename of the ACTIVATED journal entry and the directory sync after it, of an attempt that changes compose |
| DeploymentCrashes.KilledFirstActivationBreaks | scripts/deployment/state.py:112-115 | the input: a first activation killed there; resumed, a crash after its first replace leaves the new compose file alone |
| DeploymentSafety.SessionKeeps | scripts/beta_release/activation.py:17-50 | every prefix of one activation's operations keeps the host invariant over the pointers in place when the journaled attempt was journaled, and keeps every crash image good from a safe start |
| DeploymentRetry.PromotionCompletes | scripts/deployment/state.py:108-124 | whatever mixture a promotion was stopped in, running it again ends durably with all three pointers on the candidate, no journal and nothing left to resume |
| DeploymentRetry.RetryIsIdempotent | scripts/deployment/state.py:108-124 | a promotion cut off after any operation, left running or restarted from any state since the last directory sync, resumes to the same end or had reached it; only a state from before its journal entry was durable does not, and there nothing was promoted |
| DeploymentRetry.PreparedIsPromotable | scripts/beta_release/selection.py:46-56 | a newly prepared attempt can be promoted if and only if the host's runtime configuration, laid over retained settings, does not name other images than the bundle's |
| DeploymentRetry.AlreadyActiveExactly | scripts/beta_release/selection.py:73-79 | on a host whose pointers name one release a request restarts nothing if and only if it asks for that release and the runtime configuration adds nothing to the settings it runs with |
| DeploymentRetry.RepeatRestartsNothing | scripts/beta_release/activation.py:24-33 | a completed request repeated with the same configuration runs no directory operation, if and only if it was not a fresh installation that ignored the images its configuration named |
| DeploymentRetry.CompleteSessionActivates | scripts/beta_release/activation.py:17-50 | an activation that runs to its end leaves the host on the requested bundle with no journal |
| DeploymentRetry.SelectsExactly | scripts/beta_release/selection.py:22-79 | exactly when a request is taken up: with nothing journaled, readable configuration and settings on the same infrastructure, or an empty host not to be rolled back; with an attempt journaled, one on the same infrastructure which, if it has the bundle's images, is for the same operation, directory and compose file |
| DeploymentRetry.StartsAsRequested | scripts/beta_release/selection.py:46-79 | an attempt that is started is the requested operation on the requested bundle with its compose file; each setting is what the host's runtime configuration names, or else what it was |
| DeploymentHost.DeploymentState.Perform | scripts/deployment/state.py:108-124 | one directory operation on the host, or a stop before it |
| DeploymentHost.DeploymentState.WritePrivate | scripts/private_files.py:37-57 | replace one entry, then make the directory durable |
| DeploymentHost.DeploymentState.InstallRelease | scripts/deployment/state.py:116-122 | unlink, link, replace and sync of the release link, in that order |
| DeploymentHost.DeploymentState.Promote | scripts/deployment/state.py:108-124 | refuses any phase but ACTIVATED, re-reads the candidate, then runs exactly the specified operations, possibly cut off |
| DeploymentHost.DeploymentState.BeginActivation | scripts/deployment/state.py:96-99 | journals the attempt durably |
| DeploymentHost.DeploymentState.MarkActivated | scripts/deployment/state.py:101-106 | journals the ACTIVATED phase durably |
| DeploymentHost.DeploymentActivator.Activate | scripts/beta_release/activation.py:17-50 | each outcome from the host before, the request and what is granted: refused exactly for an unknown bundle or, once resumed, by its selection; healthy if and only if the host, once resumed, is on the requested release with nothing journaled and nothing added to its settings, and passes its health check; done if and only if the session can run through, every external command succeeds and every operation is granted, and the host is then durably on the requested bundle with no journal; stopped otherwise. It performs exactly as many of the session's operations as it reaches, and keeps the invariant and, from a safe start, the safety of every crash image |
| DeploymentHost.DeploymentActivator.Resume | scripts/beta_release/activation.py:21-23 | finishes a journaled promotion before anything else |
| DeploymentHost.DeploymentActivator.Run | scripts/beta_release/activation.py:46-49 | begin, external activation, mark, promote: exactly as many of those operations as are granted, up to the first two when the activation fails; finished if and only if all were and the candidate could be read |
| TerminalWakes.DequeRefinesBuffers | backend/src/api/events/terminal_wakes.py:53-119 | for every sequence of session operations the flat owner-tagged deque is the stack of savepoint buffers laid end to end, and offers exactly what that stack offers |
| TerminalWakes.RootOffers | backend/src/api/events/terminal_wakes.py:79-119 | for every well-bracketed nesting, a root transaction offers exactly its admitted wakes, in staging order and after any staged before it began, when it commits and none otherwise, and leaves nothing staged |
| TerminalWakes.AdmittedIsCommitted | backend/src/api/events/terminal_wakes.py:53-61 | while the cap is never reached, the admitted wakes are exactly those staged under savepoints that were all released |
| TerminalWakes.AdmittedIsSubsequence | backend/src/api/events/terminal_wakes.py:57-59 | otherwise they are a subsequence of those |
| TerminalWakes.ScriptExtends | backend/src/api/events/terminal_wakes.py:79-111 | inside a transaction a nesting only extends that transaction's buffer, by its admitted wakes |
| TerminalSession.StagedNeverExceedsQueue | backend/src/api/events/terminal_wakes.py:16-61 | no session ever holds more staged wakes than the publisher's queue can take |
| TerminalSession.FilledKeepsOrder | backend/src/api/events/terminal_wakes.py:46-50 | what the full queue refuses is always the latest, and a drained queue takes a whole commit |
| TerminalSession.TerminalWakePublisher.Offer | backend/src/api/events/terminal_wakes.py:46-50 | appends or refuses at the bound |
| TerminalSession.TerminalWakePublisher.Serve | backend/src/api/events/terminal_wakes.py:63-73 | one turn of the serving task takes the head, published or not |
| TerminalSession.Session.Stage | backend/src/api/events/terminal_wakes.py:53-61 | no sink, no staging; at the cap nothing; otherwise tagged with the innermost transaction, or with none |
| TerminalSession.Session.Committed | backend/src/api/events/terminal_wakes.py:79-100 | a released savepoint hands its tags to its parent in place; a root commit offers all and forgets them |
| TerminalSession.Session.RolledBack | backend/src/api/events/terminal_wakes.py:103-111 | drops exactly the innermost transaction's entries, keeping the rest in order |
| TerminalSession.Session.TransactionEnded | backend/src/api/events/terminal_wakes.py:114-119 | a root end forgets what was abandoned |
| TerminalSession.Session.Commit | backend/src/api/events/terminal_wakes.py:79-119 | listener and end together are one specified step, and the offered wakes enter the queue in order |
| TerminalSession.Session.Rollback | backend/src/api/events/terminal_wakes.py:103-119 | listener and end together are one specified step |
| TerminalSession.Session.Close | backend/src/api/events/terminal_wakes.py:114-119 | closing a session discards what it staged without the rollback listener |
| CoverageGaps.SelectionFacts | backend/src/polybot/backtesting/coverage.py:31-58 | the two record lists are the overlapping gaps, and those of them that end in range, each sorted by (boundary, id), with the same multiplicities |
| CoverageGaps.UnionIsCovered | backend/src/polybot/backtesting/coverage.py:168-189 | clipping, selecting and sorting neither lose nor add a covered millisecond, for gaps in any input order |
| CoverageCursor.MergeFoldTotal | backend/src/polybot/backtesting/coverage.py:83-93 | merging sorted intervals from the left measures the size of their union |
| CoverageCursor.ReplayCoverage.DurationMs | backend/src/polybot/backtesting/coverage.py:74-93 | the duration is the number of selected milliseconds inside at least one given gap |
| CoverageCursor.ReplayCoverage.Build | backend/src/polybot/backtesting/coverage.py:15-31 | refuses negative or reversed bounds, each with its own error, and nothing else |
| CoverageGaps.NeverEndsAnUnstartedGap | backend/src/polybot/backtesting/coverage.py:139-166 | in every run of the cursors in which starts were popped through at least the time ends are popped through, no gap is ended that was not started |
| CoverageGaps.OpenNow | backend/src/polybot/backtesting/coverage.py:123-166 | once everything through a selected time is popped, the gaps started and not ended are exactly those that cover that time |
| CoverageGaps.StoppedOnSchedule | backend/src/polybot/backtesting/scheduler/replay.py:314-336 | each stop of the clock starts and ends every record once, in order, exactly at its boundary, at strictly increasing times |
| CoverageGaps.NoBoundaryPastTheEnd | backend/src/polybot/backtesting/coverage.py:95-120 | every boundary lies in the selection; none is left exactly when both cursors are at their ends |
| CoverageCursor.ReplayCoverage.PopNextStartRecords | backend/src/polybot/backtesting/coverage.py:122-142 | pops exactly the group sharing the next clipped start |
| CoverageCursor.ReplayCoverage.PopStartRecordsThrough | backend/src/polybot/backtesting/coverage.py:144-154 | pops the maximal prefix of starts through a time; terminates; refuses negative times unchanged |
| CoverageCursor.ReplayCoverage.PopEndRecordsThrough | backend/src/polybot/backtesting/coverage.py:156-166 | the same for ends |
| CoverageCursor.ReplayCoverage.MoveTo | backend/src/polybot/backtesting/scheduler/replay.py:314-336 | moving the clock stops at every boundary up to the target on time and once, refuses to go back, and leaves open exactly the gaps that cover the target |
| TakerFee.FeeRoundsOnce | backend/src/polybot/execution/orders.py:9-22 | the fee succeeds if and only if no exact intermediate value, nor the rounded fee, exceeds the exponent range, and is then the exact raw product rescaled once: the chosen precision never rounds an intermediate and never refuses the quantum |
| TakerFeeValue.FeeIsExactProductRoundedOnce | backend/src/polybot/execution/orders.py:9-22 | the fee denotes the real number shares*rate*price*(1-price) rounded half-up once to five places, within 0.000005 of it |
| TakerFeeValue.NearestIsUnique | backend/src/polybot/execution/orders.py:9-22 | no other integer is that rounding, so the exact product alone determines the fee |
| TakerFeeValue.RescaledIsNearest | backend/src/polybot/execution/orders.py:22 | the quantize step is the half-up rounding of the number denoted, for every coefficient and exponent |
| TakerFeeValue.RawDenotes | backend/src/polybot/execution/orders.py:21 | the raw product denotes the exact real product |
| TakerFee.RawFitsPrecision | backend/src/polybot/execution/orders.py:12-19 | the precision bound covers the digits of one minus price, of the raw product and of the product at the quantum's exponent |
| TakerFee.OrdinaryInputsFit | backend/src/polybot/execution/orders.py:12-19 | every input whose digits and exponents add up within the exponent range succeeds |
| TakerFee.HugeExponentsFail | backend/src/polybot/execution/orders.py:20-22 | a finite input whose exact fee is zero and for which the call still overflows |
| Positions.RealizedIsCashPlusCost | backend/src/polybot/framework/position_transition.py:20-65 | over any valid fills from flat, total realized profit is cash flow plus signed size times basis, through adds, reductions, exact closes and flips |
| Positions.HeldIsOpenLots | backend/src/polybot/framework/position_transition.py:20-65 | over any fills from flat the size is what was bought less what was sold, and the basis is the size-weighted average price of the lots still open: a fill that opens or flips starts afresh, one that adds is a lot more, one that reduces takes the same share of every lot |
| Positions.BasisWithinPrices | backend/src/polybot/framework/position_transition.py:76-87 | so a basis never leaves the range of the prices filled at |
| Positions.ReductionIsLots | backend/src/polybot/framework/position_transition.py:52-65 | a fill against a position realizes what closing just the closed size at the same basis realizes, that size times the price difference; the rest keeps its basis; the excess opens afresh |
| Positions.ReplaySucceeds | backend/src/polybot/framework/position_transition.py:106-136 | fed its own outputs the call refuses a history if and only if a fill has a nonpositive size or price |
| Positions.KnownIsKept | backend/src/polybot/framework/position_transition.py:40-65 | each output passes the next call's validation: size zero has no basis, any basis is positive |
| Positions.FillBalances | backend/src/polybot/framework/position_transition.py:40-103 | what one fill realizes is its cash flow plus the change in the position's cost |
| Positions.SplitFill | backend/src/polybot/framework/position_transition.py:20-65 | splitting a fill at one price, even across a close and flip, gives the same position and the same total profit |
| Positions.UnknownBasis | backend/src/polybot/framework/position_transition.py:76-103 | an unknown basis stays unknown exactly until the position is closed or flipped, and profit is unknown exactly for the fills that reduce it |
| Positions.FlatMeansCash | backend/src/polybot/framework/position_transition.py:55-58 | whenever the position is flat again realized profit is the cash |
| Drawdown.DrawdownIsLargestFall | backend/src/polybot/performance/metrics.py:70-91 | the online maximum is the largest e_i - e_j over all available pairs i <= j |
| Drawdown.FractionIsLargestFallFromPeak | backend/src/polybot/performance/metrics.py:91-96 | whatever the samples, the online fraction is the largest relative fall from the running peak of the moment |
| Drawdown.FractionIsLargestExactly | backend/src/polybot/performance/metrics.py:91-96 | it is the largest (e_i - e_j)/e_i over all pairs with e_i positive if and only if every negative sample, measured from the smallest positive one before it, falls no deeper than some sample fell from its running peak |
| Drawdown.NextSampleExactly | backend/src/polybot/performance/metrics.py:38-96 | for one more sample: the fraction stays the largest relative fall if and only if the sample is not negative or no earlier positive sample falls to it by more than the new fraction |
| Drawdown.FractionIsLargestRelativeFall | backend/src/polybot/performance/metrics.py:91-96 | in particular while equity never goes below zero after being positive |
| Drawdown.FractionWithinOne | backend/src/polybot/performance/metrics.py:91-96 | the fraction is never negative, exists exactly when some equity was positive, and is at most one if and only if no sample is negative after a positive one |
| Drawdown.SummaryOfHistory | backend/src/polybot/performance/metrics.py:38-68 | counters count the samples of each status, the timestamps are the first and the last, the final sample is the last |
| Drawdown.StatusReflectsHistory | backend/src/polybot/performance/metrics.py:27-68 | counters and history status reflect the samples: complete exactly when every sample was fresh |
| RunLimits.CapsAlwaysHold | backend/src/api/limits/admission.py:24-72 | under any interleaving of launches, claims, stops, finishes, interruptions and operator terminations the per-owner and global caps, queued and active, hold |
| RunAdmission.ClaimTakesEarliest | backend/src/api/limits/admission.py:44-72 | a claim takes the earliest (created_at, id) queued run of an accessible account none of whose runs is active, and none if and only if paused, four runs are active, or no such run exists |
| RunLimits.ClaimSucceedsExactlyForChosen | backend/src/api/runs/store/__init__.py:138-168 | a claim succeeds for exactly the chosen run and otherwise changes nothing |
| RunLimits.ClaimedAtMostOnce | backend/src/api/runs/store/__init__.py:138-168 | over every history no run is handed out twice |
| RunLimits.StepMovesForward | backend/src/api/runs/status.py:25-54 | no step removes a run, and each moves its status along one edge of the graph or not at all |
| RunLimits.FinishedForever | backend/src/api/runs/status.py:55-59 | a finished run stays as it finished |
| RunLimits.OnlyClaimActivates | backend/src/api/runs/status.py:25-54 | of all operations only a claim of that run brings a run into an active status, and only its launch into the queue |
| RunLimits.TransitionFollowsGraph | backend/src/api/runs/store/transitions.py:61-98 | a guarded row update follows an edge from an expected status or changes nothing |
| RunLimits.ExpectedStatusesAreEdges | backend/src/api/runs/store/transitions.py:79-82 | no caller ever names previous statuses outside the graph |
| RunLimits.LifecycleIsTable | backend/src/api/runs/store/__init__.py:170-247 | every operation on a run but its claim does to that run exactly what a table of statuses says and changes nothing else |
| RunLimits.ClaimStarts | backend/src/api/runs/store/__init__.py:138-168 | a claim starts its run if and only if it is the run to be claimed, and otherwise changes nothing |
| RunLimits.LaunchExactly | backend/src/api/runs/store/__init__.py:72-104 | a launch names the bot's earlier launch with its key if there is one; otherwise it queues the run if and only if the bot exists, nothing is paused, its owner has access and fewer than two queued, and fewer than eight are queued in all; any other changes nothing |
| RunLimits.AdmissionIsMaximal | backend/src/api/limits/admission.py:24-42 | capacity refuses no more than it must: a launch that nothing else stands against is queued if and only if every cap would still hold with it |
| RunLimits.LaunchIsIdempotent | backend/src/api/runs/store/__init__.py:85-89 | launching again with the same key, after any operations in between, changes nothing and names the first launch |
| EventReplay.HistoryThenReplay | backend/src/api/events/store.py:72-131 | pages walked back under any concurrent appends, then a replay from the first page's cursor, show every event of the view exactly once and in order; and the replay delivers, for the dashboard only and in order, exactly the events since that page which the dashboard draws and the view does not select |
| EventReplay.ReplayDeliversDue | backend/src/api/http/sse/replay.py:27-41 | what a replay delivers, by event kind: each later event that the view selects or that is a chart sample, wallet timeline or stream health, once and in id order, up to and including the first that ends the run, and nothing else; marked dashboard-only exactly when the view does not select it |
| EventPaging.ReadDeliversDue | backend/src/api/events/store.py:112-131 | the same of one read: every such event from the first on, up to 500 |
| EventPaging.ViewsCover | backend/src/api/events/views.py:32-59 | diagnostics holds all of activity, it and the dashboard between them every event, and the event that ends a run is on the own channel of both ordinary views |
| EventHistory.RequestsServe | backend/src/api/events/store.py:72-110 | however the log grows between requests and between the two reads of each, every page is the end of what remains of the first watermark and its cursor leaves exactly the rest |
| EventHistory.WalkCollectsRemaining | backend/src/api/events/store.py:72-110 | from pages so served the walk collects each remaining event once, ascending |
| EventHistory.WalkFromTheStart | backend/src/api/events/store.py:72-110 | the whole walk is the view up to the first watermark, which is the stream cursor |
| EventHistory.WalkIsShort | backend/src/api/events/store.py:98-110 | every page but the oldest is full, so the walk ends after as few requests as possible |
| EventHistory.CursorMovesDown | backend/src/api/events/pagination.py:9-16 | a page cursor exists exactly when rows are left and leaves exactly the rows before that page |
| EventHistory.PageIsTail | backend/src/api/events/store.py:81-110 | a page is the end of what remains of the first watermark, unaffected by later appends |
| EventHistory.WalkCompleteExactly | backend/src/api/events/pagination.py:9-16 | a walk from the start shows the whole view up to its first watermark if and only if its page limit is positive or there is nothing to show |
| EventReplay.Replay | backend/src/api/http/sse/replay.py:27-41 | the replay loop ends after a terminal event or a short batch, having delivered exactly what is owed of the log its last read saw |
| EventReplay.SendBatch | backend/src/api/http/sse/frames.py:19-30 | the frames of a batch end with its first terminal event |
| EventReplay.ReplayedPart | backend/src/api/events/store.py:112-131 | a replay from a watermark shows on the view's own channel exactly the later events of the view, and off it exactly the later events only the dashboard draws |
| EventPaging.EventStore.Append | backend/src/api/events/store.py:40-51 | an id outside the public range is rolled back, any other extends the log |
| StreamPlan.PlanAcceptsDiscovered | backend/src/polybot/framework/streams.py:115-173 | a nonempty plan accepts a trade if and only if the folded scopes hold the normalized wallet unrestricted or with that slug, or an independent rule lists the slug |
| StreamPlan.OnlyIndependentRulesWiden | backend/src/polybot/framework/streams.py:147-163 | a wallet is unrestricted if and only if an independent rule names it; otherwise its slugs are exactly those of the filtered rules naming it |
| StreamPlan.DiscoverMeans | backend/src/polybot/framework/streams.py:147-163 | the folded scopes in terms of the scopes folded, whatever their order |
| StreamPlan.RuleAcceptsMeaning | backend/src/polybot/framework/streams.py:37-48 | a filtered rule accepts wallet and market, an independent one wallet or market |
| StreamPlan.WalletDiscoveryScopes | backend/src/polybot/framework/streams.py:147-163 | the dictionary-updating loops compute the specified fold |
| StreamPlan.MadeRuleIsValid | backend/src/polybot/framework/streams.py:56-74 | construction normalizes and normalizing again changes nothing |
| StreamPlan.RuleIsRefused | backend/src/polybot/framework/streams.py:70-74 | construction fails if and only if too few groups have a nonblank entry |
| TrackedMarkets.RunKeepsInv | backend/src/polybot/cli/tracked_markets.py:84-139 | after any history of adds and resolves, refused ones included, tracked and terminal conditions are disjoint and the cap holds |
| TrackedMarkets.ResolvedForever | backend/src/polybot/cli/tracked_markets.py:134-139 | a resolved condition is never tracked again |
| TrackedMarkets.EqualRevisionEqualTokens | backend/src/polybot/cli/tracked_markets.py:103-139 | any two moments with equal revision have equal subscribed token sets, and revisions never go down |
| TrackedMarkets.RevisionFollowsTokens | backend/src/polybot/cli/tracked_markets.py:156-158 | a step moves the revision exactly when it adds or removes a tracked condition |
| TrackedMarkets.EntriesAreHistory | backend/src/polybot/cli/tracked_markets.py:84-139 | after any history the resolved conditions are those at the start and those resolved since; a condition is tracked if and only if it is not resolved and an add for it was taken; its entry holds the interests and owners of all adds taken and the market of the last |
| TrackedMarkets.FlagReportsChange | backend/src/polybot/cli/tracked_markets.py:103-139 | the returned flag says whether the entries changed, and an error changes nothing |
| TrackedMarkets.TrackedMarketRegistry.Add | backend/src/polybot/cli/tracked_markets.py:103-132 | the in-place update agrees with the specified step, errors included |
| TrackedMarkets.TrackedMarketRegistry.Resolve | backend/src/polybot/cli/tracked_markets.py:134-139 | agrees with the specified step |
| TrackedMarkets.AddRefusedExactly | backend/src/polybot/cli/tracked_markets.py:84-132 | an add is refused for capacity if and only if tracking the new market would break the cap, and as ambiguous if and only if it would change a tracked subscription; a market that passes both checks is added without error |
| ProbabilityTrend.BoundedHistoryIsEnough | backend/src/polybot/examples/btc_five_minute_strategy.py:280-303 | with history cut to twice the warm-up every observation gets the metrics of the complete log |
| ProbabilityTrend.MetricsAreBounded | backend/src/polybot/examples/btc_five_minute_strategy.py:280-309 | |momentum| <= lookback * noise, and trend and momentum stay within the observed spread |
| ProbabilityTrend.EmaWithin | backend/src/polybot/examples/btc_five_minute_strategy.py:305-309 | both averages stay between the smallest and the largest observation |
| ProbabilityTrend.MetricsMirror | backend/src/polybot/examples/btc_five_minute_strategy.py:280-303 | complementary probabilities give exactly opposite trend and momentum and the same noise |
| ProbabilityTrend.UnreachableMultipleNeverTrades | backend/src/polybot/examples/btc_five_minute_strategy.py:115-128 | a noise-to-momentum multiple above the lookback never yields a direction |
| ProbabilityTrend.DirectionFollowsSign | backend/src/polybot/examples/btc_five_minute_strategy.py:115-128 | up exactly when trend and momentum both clear their thresholds, down exactly when their negatives do and up does not; momentum has the direction's sign, strictly with a positive minimum |
| ProbabilityTrend.ComplementCallsOpposite | backend/src/polybot/examples/btc_five_minute_strategy.py:115-128 | complementary observations call the opposite direction, except exactly when trend and momentum are zero and no threshold is above zero: then both outcomes are called up |
| ProbabilityTrend.StillMarketCallsUp | backend/src/polybot/examples/btc_five_minute_strategy.py:115-128 | the input: thresholds of zero are valid, and a price that stands still is then called up for both outcomes |
| ProbabilityTrend.RisingMarket | backend/src/polybot/examples/btc_five_minute_strategy.py:280-309 | a log that only rises has nonnegative trend, all its noise is momentum, and it is never called down |
| ProbabilityTrend.QuoteIsSound | backend/src/polybot/examples/btc_five_minute_strategy.py:187-212 | a quote takes the best price of each side whatever the order of the book, the microprice lies between them and the imbalance in [-1, 1] |
| ProbabilityTrend.ObservationIsProbability | backend/src/polybot/examples/btc_five_minute_strategy.py:236-268 | what is observed is always in the unit interval |
| TrimPublish.RecordingTrim.Trim | backend/src/polybot/recording/trimming.py:67-189 | whichever stage fails, and wherever an interrupt falls, the archive path holds the complete source or the validated copy; in terms of options, faults and the files before: exactly when it is replaced, when the source stays reachable, and when a backup or a temporary is left; nobody else's backup is touched; and the report is true |
| TrimPublish.RecordingTrim.Attempt | backend/src/polybot/recording/trimming.py:67-144 | archive, backup, temporary and flags wherever the stages stop, as functions of options, faults and the files before; the stage named is one at which something did go wrong |
| TrimPublish.RecordingTrim.CleanUp | backend/src/polybot/recording/trimming.py:192-219 | each cleanup step is tried whatever the earlier ones raised, until an interrupt falls into one and skips the rest; the retained flag says whether a backup this trim recorded is still there |
| TrimPublish.RecordingTrim.LinkBackup | backend/src/polybot/recording/trimming.py:122-127 | linking never replaces a file; an interrupt before the link is recorded leaves it unowned |
| TrimPublish.RecordingTrim.InstallReplacement | backend/src/polybot/recording/trimming.py:129-144 | the archive path changes only by the rename of a validated copy |
| TrimPublish.RecordingTrim.CreateTemporaryPath | backend/src/polybot/recording/trim_files.py:17-26 | the temporary path is known only when it was made, closed and unlinked |

## Left out

- LiveStream.MarketStreamAdapter.Events: subscribing, closing and the clock are inputs; a delivery carries its decoded payload, because the decoding of SDK events is not part of this model.
- OrderBooks.BookDepthProjector.ApplyBaseline: book validity is price and size checks on exact numbers; labels, tick metadata and level sorting of a snapshot are a function of the same depth and market and are not repeated.
- RuntimeObserver.WebRuntimeObserver.SampleDurable: chart values, equity and timestamps of a sample are left out; only its markers matter to delivery.
- MarkerDelivery.AdmittedIsQueued: a drain that gives up drops the queue, so nothing is said past that point.
- RuntimeObserver.WebRuntimeObserver.Drain: an event the writer takes and fails to append is lost in the program as well; delivery is stated up to the queue.
- DeploymentHost.DeploymentState.WritePrivate: the temporary file and its content sync are one operation with the replace; file modes and symbolic-link checks are left out.
- DeploymentHost.DeploymentActivator.Activate: container commands are booleans: those before the journaled start, and those after it or the health check of a release already active; the process lock is the absence of a second activator; attempt directories are taken as written before they are journaled.
- TerminalWakes.DequeRefinesBuffers: the order in which the database library calls its listeners is taken as commit or rollback first, then transaction end, innermost first.
- CoverageCursor.ReplayCoverage.MoveTo: what a blackout does to books, artifacts and pending deliveries is left out.
- TakerFee.FeeRoundsOnce: decimal operations follow the General Decimal Arithmetic Specification (exact result, then rounding to context); signed zeros, special values and the interpreter's memory limits are left out.
- Positions.RealizedIsCashPlusCost: exact numbers stand for decimals in the ambient context, whose rounding is not modelled here.
- Drawdown.FractionIsLargestRelativeFall: exact numbers, as above.
- ProbabilityTrend.BoundedHistoryIsEnough: exact numbers, as above; whether a pair of books is current is an input.
- RunLimits.CapsAlwaysHold: each operation is one transaction under the admission lock or one guarded row update; leases and expiry are inputs that say whether the row matched; history retention and erasure, which only remove rows, are left out.
- EventReplay.HistoryThenReplay: ids of one run become visible in increasing order, which the writer provides by one writer a run; a terminal event is its run's last, because the lease that fences every append (`backend/src/api/runs/lease.py:22-40`) requires an unfinished status.
- EventReplay.Replay: the wait for live events after a short batch is left out.
- StreamPlan.MadeRuleIsValid: white space and letter case are those of ASCII text; the dictionary form of a rule and the pattern of a wallet address are left out.
- TrackedMarkets.TrackedMarketRegistry.Add: an entry handed out earlier and changed through that reference is not modelled, nor is waiting for a change.
- TrimPublish.RecordingTrim.Trim: planning, export and validation of an archive are inputs that succeed or fail; the source is taken as self-contained once it is opened for replay, so its stale side files are only counted.
- Strategy entry and exit checks, terminal rendering, account and session routes, administrative views, mail and chart frontends: one-branch checks or input and output.
- The `remaining_long_position_size` helper, bucket arithmetic, slug batching and monotone clocks: true but easy.
