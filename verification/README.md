# Verified model of the lab control stack

A Dafny model of the parts of `lumi` in which state, interleaving or arithmetic decide whether an experiment goes
right, with proofs of what those parts promise. `dafny verify dfyconfig.toml` checks all of it.

## What is modelled

- **Mask alignment** (`Median`, `SlitFitting`, `SlitSymmetry`, `CenterBounds`, `WindowLimit`, `AutoAlign`): the fit of a
  slit in an intensity trace and the multi-pass re-scan that uses it. Numbers are reals; positions in the tables of
  one pass are evenly spaced, as the code spaces them.
- **The experiment driver** (`Handler`, `DriverRuns`, `StepJournal`): the motion claim, the current task, the pending
  confirmation, the update queue, the clients' view of them, and the journal rows, in every interleaving of requests
  and runners. A step is the code between two awaits that suspend.
- **Command scripts** (`MiRunner`): any number of concurrent submissions, with updates lost, repeated or reordered.
- **Substrates and their history** (`SubstrateProgress`, `Positions`, `GrowthHistory`, `GrowthInvariants`,
  `GrowthRaces`, `GrowthGeometry`, `GrowthManager`): the growth positions of a substrate, the database tables beside
  it, and the operations that must keep the two in step. `GrowthManager` has the in-place classes; `GrowthHistory` says
  what each operation does; `GrowthRaces` lets other operations in between a correction's check and its writes.
- **The bridge** (`Framing`, `Transport`, `BridgeSession`, `BridgeRequests`): the frames, the browser's calls, the stream
  clients a session owns, and which requests reach the bus.
- **Contracts and permissions** (`Contracts`, `RegexText`, `Policy`, `PolicyRules`): declaration checks, routing keys,
  topic matching (section 3.1.3.3 of the AMQP 0-9-1 specification), permission expressions as text.
- **Generated types** (`TsTypes`, `TsReading`): the printer of TypeScript type expressions and a reader of them.
- **Times and pages** (`Timestamps`, `TimeText`, `Paging`): stored times, the time window, the paged reader.

Classes hold the fields the Python and TypeScript objects update; each of their methods is proved equal to a function
on values, the lemmas named `...Exactly` say what that function does without naming it, and the run properties are
proved of it. The methods of `Handler` are short and their rows
stand at the end of the table: they tie the code's own steps to the functions that `DriverRuns` interleaves. `Common`
has what several modules share.

## What the proofs show about the code

Where the code does less than its comments or its neighbours suggest, the model follows the code:

- The next re-scan takes in the whole previous bump when that bump spans at most 22 steps, and 22 is the limit:
  a scan of `count` points can lose part of a run of exactly the spans from 23 to `count - 3` steps (`SlipsOutExactly`).
  In passes after the first that is none with up to 25 points per pass, the default being 15, and spans of 23 to 97 with the
  100 a request may ask for.
- A re-scan is finer than the pass before it exactly when that pass's run spans fewer than `points_per_pass - 5` steps.
- A start that fails leaves its task current (`FailedStartStaysCurrent`). Every task in flight is the current one
  throughout a run exactly when no task is started while another is in flight (`CurrentThroughoutExactly`); otherwise
  the start hides the one running, and the first to end clears the mark.
- `_wait_for_task` can return the outcome of an earlier task, because the current task is cleared before the result is
  pushed (`WaitedOutcomeCanBeStale`). The outcome is the waited task's own exactly when its report has been delivered and
  no result after it (`WaitedOutcomeIsOwnExactly`). That a later *task* has not reported is the same thing when each task
  is started after the one before has reported (`WaitedOutcomeIsOwnApart`), but not when it is started after the one
  before has merely ended: a report held up by the closing of its journal row overtakes (`EarlierReportOvertakes`).
- A begin reads its parent before the sample lookup suspends, inserts its row, and becomes the last step only after the
  commit has suspended once more. Its row points at the row begun last exactly when no row was inserted since the read and
  the row begun last had settled by it (`ParentIsLastBegunInOrder`; `ParentIsLastBegunExactly` without assuming that steps
  settle in order). So the rows of a session are a chain exactly when every insert is like that (`ChainExactly`). Begins that
  overlap break it, and so does one that reads while another's row waits for its commit (`ReadBeforeCommitSharesParent`).
- After an earlier position is reopened and finished again, the current position can be a spent one
  (`FinishCanLandOnSpent`); `FreeAfterExactly` says for each operation when the current position is free.
- `update_substrate` corrects the first loaded copy of a substrate. When the same substrate is loaded twice, the copy
  on top keeps its old positions (`CorrectionReachesFirstCopy`). The results about the current substrate therefore ask
  that it be loaded once, which a caller can see from the stack.
- The comment at `src/lumi/experiment/manager.py:488` says a correction is rebuilt from the stored row; it is rebuilt from
  the loaded copy. As long as no correction was refused for its geometry that makes no difference
  (`CorrectionsStartFromRow`). A refused one stays in the copy and decides later positions (`RefusedCorrectionLingers`).
  A correction stores what it would from the row exactly when its positions are given or the stage sees the same positions
  of the two edited geometries (`StoresAsFromRowExactly`), which on a stage that reaches them all means the same layout
  (`StoresAsFromRowByLayout`). It is enough, but not necessary, that the fields it leaves alone agree, since nearby widths
  have one row of positions (`WidthsWithOneRow`).
- The check that a substrate has no growths and the correction it guards are not one step. Applying a correction changes
  the row of a grown substrate exactly when a growth of it was recorded in between and the edit changes the row
  (`CommitRenumbersExactly`), and such a run exists (`CorrectionRacesWithRecord`).
- Retiring a growth hands its position back but leaves the sample row that finishing had marked saying grown
  (`RetireLeavesSampleMarked`).
- The permission expressions also accept a key followed by one newline, because `$` does, and the expression for no
  keys accepts the empty key, contrary to the comment that it matches nothing. No role ever gets that expression on an
  exchange that has a capability.
- The newline goes no further than the permission check: the op is then looked up by its exact name and the request ends in
  an error (`NewlineStopsAtLookup`). Of the control verbs only `start`, `stop` and `state` reach the bus; an operator's
  `config`, and any permitted verb with a newline, is acknowledged without a call (`OthersAreAcknowledged`).
- A stream client for which something raises once its channel is open, be it the exchange, its start or its subscribing,
  is never released (`LeakedIsNeverReleased`).
- An acknowledgement ends its call without its identifier being compared; `ReturnsOwnExecution` says what follows.
- Base names, not the names alone, keep requests apart: `RequestsStayApartExactly` says a registry's request keys each
  reach one binding exactly when its dotted base names are different.
- Following `has_more` with a limit above 1000 skips rows as soon as more than 1000 match, and with a limit below 1
  never ends.
- A fractional `since` also admits the second it falls in; `FractionalSinceExactly` and `FractionalUntilExactly` say
  exactly which bounds are exact.

## Model

| member | source | states |
|---|---|---|
| Median.SortSorts | src/lumi/experiment/mask_align.py:63 | the sort under the median orders the readings |
| Median.MedianIsMiddle | src/lumi/experiment/mask_align.py:63 | in whatever order the readings ascend, twice the median is the sum of the two in the middle |
| Median.MedianFollows | src/lumi/experiment/mask_align.py:63 | the median follows every increasing rescaling of the trace that keeps midpoints, and every mirroring |
| SlitFitting.PeakIndexIsPeak | src/lumi/experiment/mask_align.py:65-66 | the peak is the first point of greatest absolute deviation |
| SlitFitting.GrowRun | src/lumi/experiment/mask_align.py:76-80 | the two loops end where the run specification says |
| SlitFitting.LocateSlit | src/lumi/experiment/mask_align.py:44-90 | the loops and early refusals compute the specified fit or the specified refusal, in the same order |
| SlitFitting.RunIsMaximal | src/lumi/experiment/mask_align.py:73-80 | the run is the maximal contiguous one around the peak at or above half the contrast |
| SlitFitting.FlatRunTouchesEdges | src/lumi/experiment/mask_align.py:76-86 | a trace without any deviation is refused at the edge even when no contrast is asked for |
| SlitFitting.AcceptedRunHasMass | src/lumi/experiment/mask_align.py:81-88 | the weights of an accepted run have a positive sum, so the division is defined |
| SlitFitting.MeanInHull | src/lumi/experiment/mask_align.py:87-88 | the weighted centre lies between the first and last point of the run |
| SlitFitting.FitIsTheMaximalRun | src/lumi/experiment/mask_align.py:44-90 | a successful fit averages the maximal half-height run, its centre is inside it and strictly inside the window, and width and count are the run's |
| SlitFitting.FitExactly | src/lumi/experiment/mask_align.py:44-90 | in the readings' own terms: what is refused, in which order, and of any other trace the polarity, contrast, width and count of the maximal run about the first point furthest from the baseline, and as centre the one point about which that run's deviations balance |
| SlitFitting.RunIsUnique | src/lumi/experiment/mask_align.py:65-80 | there is only one such run |
| SlitSymmetry.CenterMovesWithPositions | src/lumi/experiment/mask_align.py:44-90 | shifting the positions shifts the centre exactly and changes nothing else, refusals included |
| SlitSymmetry.GainOnlyScalesContrast | src/lumi/experiment/mask_align.py:63-90 | a positive gain on the deviations scales the contrast and leaves centre, width, count and polarity |
| SlitSymmetry.MirrorOnlyFlipsPolarity | src/lumi/experiment/mask_align.py:63-90 | reflecting the readings about the baseline flips the polarity and nothing else |
| CenterBounds.PullIsBounded | src/lumi/experiment/mask_align.py:87-88 | with weights between half and full contrast the moment about a point beyond the bound has a definite sign |
| CenterBounds.PullWithinSixth | src/lumi/experiment/mask_align.py:87-88 | those weights pull the centre at most a sixth of the run from its midpoint |
| CenterBounds.CenterWithinSixthOfWidth | src/lumi/experiment/mask_align.py:44-90 | on an evenly spaced scan the fitted centre lies within width/6 of the run's midpoint |
| CenterBounds.CenterWithinTwoSteps | src/lumi/experiment/manager.py:1294-1303 | and within two steps of it when the run spans at most 22 steps |
| WindowLimit.LongerRunsSlipOut | src/lumi/experiment/manager.py:1294-1303 | for every span of 23 steps or more and every scan with room for it, a trace whose run has that span and whose next window misses part of it |
| WindowLimit.SlipsOutExactly | src/lumi/experiment/manager.py:1264-1303 | a scan can lose part of a run of some span if and only if that is at least 23 steps and three less than the points of the scan |
| AutoAlign.RescanWindow | src/lumi/experiment/manager.py:1298-1300 | a re-scan has the asked number of points, from half a width and two steps below the centre to as much above |
| AutoAlign.RescanSweepsTheRun | src/lumi/experiment/manager.py:1298-1303 | the next window contains the whole previous run when that spans at most 22 steps |
| AutoAlign.RescanIsFinerIff | src/lumi/experiment/manager.py:1298-1299 | the step shrinks exactly when the run spans fewer than points_per_pass - 5 steps |
| AutoAlign.CenterInTravel | src/lumi/experiment/manager.py:1264-1303 | the centre of an accepted scan is itself inside the mask's travel |
| AutoAlign.AlignmentKeepsTheBump | src/lumi/experiment/manager.py:1232-1341 | over a whole successful alignment: at most max_passes passes, all in the travel, the settling pass is last, and every coverable pass sweeps the run before it |
| AutoAlign.ReportExactly | src/lumi/experiment/manager.py:1262-1340 | what a report says, pass by pass: the wide scan lies half a window about the centre asked for or the calibration, each later pass about the bump before it, it converged exactly when the last two centres differ by less than the tolerance, and its figures are the last pass's beside the first one's baseline |
| AutoAlign.AlignmentReadsCamera | src/lumi/experiment/manager.py:1276-1303 | each pass is the fit of what the camera shows at its points, the first against its own median and the others against its baseline |
| AutoAlign.OutOfTravelExactly | src/lumi/experiment/manager.py:1345-1350 | a scan is refused for the travel exactly when it starts below it or ends at its end or beyond |
| AutoAlign.MaskAligner.MoveMask | src/lumi/experiment/manager.py:912-914 | a move outside the travel is refused and moves nothing |
| AutoAlign.MaskAligner.ScanMask | src/lumi/experiment/manager.py:1276-1283 | one scan moves through the points in order and records every reading |
| AutoAlign.MaskAligner.FitScan | src/lumi/experiment/manager.py:1264-1288 | a scan and its fit compute the specified pass or failure, and a window outside the travel is refused before anything moves |
| AutoAlign.MaskAligner.RescanBump | src/lumi/experiment/manager.py:1297-1307 | one re-scan computes the specified pass or failure from the pass before it |
| AutoAlign.MaskAligner.Refine | src/lumi/experiment/manager.py:1293-1315 | the loop over passes computes the specified refinement |
| AutoAlign.MaskAligner.AutoAlign | src/lumi/experiment/manager.py:1232-1341 | the whole alignment computes the specified result; the stored centre changes only on success with apply, and the mask ends at the centre |
| DriverRuns.MotionIsExclusiveAlways | src/lumi/experiment/handlers.py:382-424 | in every interleaving the claim is held exactly while one claiming activity is in progress, under its name, and never two are |
| DriverRuns.ReleasesItsOwnClaim | src/lumi/experiment/handlers.py:394-424 | every way out of a claiming activity frees the claim that activity itself held |
| DriverRuns.PictureIsTrueAlways | src/lumi/experiment/handlers.py:353-463 | a client that folds all events has the pending confirmation, and the current task unless a result is still to be pushed |
| DriverRuns.CurrentIsLiveAlways | src/lumi/experiment/handlers.py:428-463 | in every run the current task is in flight exactly when its start did not fail |
| DriverRuns.FailedStartStaysCurrent | src/lumi/experiment/handlers.py:417-424 | a failed start leaves its task current with nothing in progress |
| DriverRuns.CurrentThroughoutExactly | src/lumi/experiment/handlers.py:428-463 | every task in flight is the current one throughout a run if and only if no task is started while another is in flight, failed starts or not |
| DriverRuns.OverlapHidesTask | src/lumi/experiment/handlers.py:428-433 | a start accepted while a task is in flight takes the mark from it |
| DriverRuns.OneResultEachAlways | src/lumi/experiment/handlers.py:446-463 | every task that is over pushed exactly one result, and no other did |
| DriverRuns.RowsCloseOnceAlways | src/lumi/experiment/journal.py:145-160 | no journal row is closed twice, and a task still to close its row owns it alone |
| DriverRuns.SerialTasksAreCurrent | src/lumi/experiment/handlers.py:428-463 | without such starts at most one task is in flight, and it is the current one at every moment |
| DriverRuns.WaitForTask | src/lumi/experiment/recipes.py:100-112 | the wait ends with the first poll that does not see the task as current |
| DriverRuns.WaitEndsAfterTheTask | src/lumi/experiment/recipes.py:100-112 | in a run without overlaps it ends only after the task's coroutine has finished or its start has failed |
| DriverRuns.WaitedOutcomeIsOwnExactly | src/lumi/experiment/recipes.py:108-111 | in every run the outcome read is the waited task's own if and only if its report has been delivered and no result after it |
| DriverRuns.HeldOutcomeIsTheTasks | src/lumi/experiment/client.py:109-117 | in every run, a session that holds a task's outcome holds the success with which that task's coroutine ended |
| DriverRuns.EndsOnce | src/lumi/experiment/handlers.py:446-454 | and that is one success, for a coroutine ends once |
| DriverRuns.WaitedOutcomeIsOwnApart | src/lumi/experiment/recipes.py:108-111 | when each task is started after the one before has reported: if and only if its report has been delivered and no later task's result |
| DriverRuns.EarlierReportOvertakes | src/lumi/experiment/handlers.py:446-463 | a run of tasks that do not overlap in flight in which an earlier task's late report replaces the waited task's outcome |
| DriverRuns.WaitedOutcomeCanBeStale | src/lumi/experiment/recipes.py:108-111 | in every run, a wait that ends before its task has reported reads another task's outcome or none |
| DriverRuns.AwaitMarkerRole | src/lumi/experiment/handlers.py:1321-1350 | the marker ends the wait, a confirmation that is gone cancels it, the deadline fails it, and only its own confirmation is cleared |
| DriverRuns.ResolvedStaysResolved | src/lumi/experiment/handlers.py:571-577 | a confirmation that is no longer pending never is again, so polling cannot miss it |
| DriverRuns.ClaimChangesExactly | src/lumi/experiment/handlers.py:382-424 | which steps take the motion claim, under which name, which give it up, and that no other touches it |
| DriverRuns.ConfirmationChangesExactly | src/lumi/experiment/handlers.py:571-577 | which steps set and clear the confirmation, and that no other touches it |
| DriverRuns.EventsExactly | src/lumi/experiment/handlers.py:353-359 | which steps push an event, and what the event shows |
| DriverRuns.RowClosesExactly | src/lumi/experiment/journal.py:145-160 | in every run closing a task's row closes that row alone, exactly when the database takes it |
| StepJournal.Journal.Insert | src/lumi/experiment/db.py:938-963 | an insert adds one row under the parent that was read and leaves the last step alone; a refused one changes nothing |
| StepJournal.Journal.Settle | src/lumi/experiment/journal.py:138-143 | after the commit its row becomes the last step |
| StepJournal.Journal.Begin | src/lumi/experiment/journal.py:111-143 | a begin that nothing interrupts does both; a refused one changes nothing |
| StepJournal.Journal.End | src/lumi/experiment/journal.py:145-160 | an end without a row does nothing |
| StepJournal.ParentsAreEarlierAlways | src/lumi/experiment/journal.py:111-143 | in every interleaving a row's parent was begun before it |
| StepJournal.EndsAreCounted | src/lumi/experiment/journal.py:145-160 | in every run each row was ended as often as an end of it was stored |
| StepJournal.SettlesAndReads | src/lumi/experiment/journal.py:123-143 | settling makes its own row the last step and a begin reads the last step there is |
| StepJournal.ParentIsLastBegunExactly | src/lumi/experiment/journal.py:111-143 | in every interleaving of reads, inserts and settlings, a row inserted in the session of its begin points at the row begun last if and only if no row was inserted since it read its parent and by that read the row begun last had settled, after every other |
| StepJournal.ParentIsLastBegunInOrder | src/lumi/experiment/journal.py:111-143 | when steps settle in the order of their rows: if and only if none was inserted since and the row begun last had settled by the read |
| StepJournal.ChainExactly | src/lumi/experiment/journal.py:111-143 | in a session each row's parent is the row begun just before it if and only if for every row stored, no other was inserted since its begin read the parent and none was inserted but unsettled at that read |
| StepJournal.ParentsChainInStartOrder | src/lumi/experiment/journal.py:138-142 | so it is when each begin is called after the one before has settled |
| StepJournal.OverlappingBeginsShareParent | src/lumi/experiment/journal.py:123-133 | overlapping begins get the same parent, from whatever state |
| StepJournal.ReadBeforeCommitSharesParent | src/lumi/experiment/db.py:953-963 | so do a begin whose row waits for its commit and one that reads meanwhile, though it inserts after that has settled |
| MiRunner.MiCommandRunner.Register | src/lumi/experiment/mi.py:152-155 | a submission waits on an open future under its identifier |
| MiRunner.MiCommandRunner.OnUpdate | src/lumi/experiment/mi.py:101-104 | an update completes an open future of its identifier if it is final, and nothing else |
| MiRunner.MiCommandRunner.Drop | src/lumi/experiment/mi.py:167-168 | the entry goes whatever the outcome |
| MiRunner.WaitUnbounded | src/lumi/experiment/mi.py:117-126 | the unbounded wait returns the first completion and warns once for every window before it |
| MiRunner.CallsAreSoundAlways | src/lumi/experiment/mi.py:101-181 | in every interleaving the entries are the calls in flight and every future holds the first completion since its submission |
| MiRunner.ReturnsOwnExecution | src/lumi/experiment/mi.py:158-181 | a call returns a finished execution or its special acknowledgement, not stopped and not aborted while aborts are checked, and with its own identifier exactly when an update ended it or the acknowledgement echoes that identifier |
| MiRunner.EndsExactly | src/lumi/experiment/mi.py:158-181 | in every run a call that did not time out raises exactly when the execution it was ended with was stopped, or aborted while aborts are checked, and otherwise returns that execution |
| MiRunner.AcknowledgementEndsExactly | src/lumi/experiment/mi.py:158-166 | an acknowledgement ends its call exactly when it is special or finished |
| MiRunner.TimesOutExactly | src/lumi/experiment/mi.py:106-115 | a bounded wait that runs out times out and an unbounded one never runs out |
| MiRunner.SubmitsAndHears | src/lumi/experiment/mi.py:101-155 | a submission waits under a new identifier as it was asked to; an update is heard by the open call it names alone |
| MiRunner.FailedSubmissionEnds | src/lumi/experiment/mi.py:157-168 | a submission that fails ends its call and drops its entry |
| MiRunner.CompletionIsNeverMissed | src/lumi/experiment/mi.py:101-126 | a completion that arrives while the call is pending ends it, even before the acknowledgement |
| MiRunner.UnboundedEndsWithCompletion | src/lumi/experiment/mi.py:117-126 | an unbounded call ends only with its first completion |
| MiRunner.SetOnlyOnce | src/lumi/experiment/mi.py:101-104 | a future is set at most once |
| SubstrateProgress.Substrate.CurrentPosition | src/lumi/experiment/manager.py:195-198 | the current position, or none at the end |
| SubstrateProgress.Substrate.AccessiblePositions | src/lumi/experiment/manager.py:179-181 | the positions not spent, in order |
| SubstrateProgress.Substrate.FinishCurrentPosition | src/lumi/experiment/manager.py:200-202 | the current index becomes spent and the next one current |
| SubstrateProgress.Substrate.ReopenPosition | src/lumi/experiment/manager.py:204-212 | the index is free again and current unless an earlier one was |
| SubstrateProgress.Substrate.LastFinishedPosition | src/lumi/experiment/manager.py:214-216 | the greatest spent index |
| SubstrateProgress.Substrate.ResetProgress | src/lumi/experiment/manager.py:218-220 | nothing is spent |
| SubstrateProgress.Substrate.RestoreProgress | src/lumi/experiment/manager.py:222-235 | the loop lands where the least-free specification says |
| SubstrateProgress.RestoreLandsOnLeastFree | src/lumi/experiment/manager.py:222-235 | restoring keeps the used indices in range and lands on the least free one or the end |
| SubstrateProgress.CurrentHeadsTheFree | src/lumi/experiment/manager.py:222-235 | the current position is then the first accessible one, and there is none at the end |
| SubstrateProgress.NoneSkippedAlways | src/lumi/experiment/manager.py:200-235 | in any run every index below the current one is spent |
| SubstrateProgress.FreeAfterExactly | src/lumi/experiment/manager.py:200-235 | for each operation exactly when it leaves the current index free |
| SubstrateProgress.CurrentFreeOnPrefixes | src/lumi/experiment/manager.py:200-235 | while the spent indices stay a prefix the current one is free |
| SubstrateProgress.FinishCanLandOnSpent | src/lumi/experiment/manager.py:200-212 | a run after which the current index is spent |
| SubstrateProgress.SpentAfterExactly | src/lumi/experiment/manager.py:200-235 | which indices are spent after each operation, and which one is current |
| SubstrateProgress.FreeFromExactly | src/lumi/experiment/manager.py:179-181 | the accessible positions are those at the free indices, each at its rank among them |
| Positions.ComputePositions | src/lumi/experiment/manager.py:183-190 | the listed and sorted positions are the even row; a spacing of zero fails |
| Positions.ComputedPositionsFit | src/lumi/experiment/manager.py:183-190 | computed positions ascend by the spacing, mirror each other and stay on the substrate |
| Positions.ComputedExactly | src/lumi/experiment/manager.py:183-190 | the computed positions are exactly the multiples of the spacing up to half the width on either side |
| Positions.DropByRheedLimit | src/lumi/experiment/manager.py:298-306 | exactly the positions out of the stage's reach are dropped, in order |
| Positions.SeenExactly | src/lumi/experiment/manager.py:298-306 | what is kept is what the stage can see |
| Positions.KeptExactly | src/lumi/experiment/manager.py:295-306 | a position is kept exactly when it was listed and centre - x lies between the stage's limits, whichever is the greater |
| Positions.SeenSplits | src/lumi/experiment/manager.py:298-306 | they are kept one by one, in order and as often as listed |
| Positions.PositionsExactly | src/lumi/experiment/manager.py:308-325 | a substrate gets of the given positions, or else the computed ones, those within the limits |
| GrowthHistory.UsedIsLive | src/lumi/experiment/db.py:720-750 | an index is used exactly when a growth that is not retired used it |
| GrowthHistory.UsedExactly | src/lumi/experiment/db.py:720-750 | an index is used exactly when a growth that stands has it as its pixel, or was not a pixel and it is the first |
| GrowthHistory.MarkedMarks | src/lumi/experiment/db.py:857-873 | setting a position's state changes that row alone |
| GrowthHistory.FirstCopyIsFirst | src/lumi/experiment/manager.py:439-446 | the substrate found by id is the first loaded one with it |
| GrowthManager.GrowthDB.FindSample | src/lumi/experiment/db.py:857-867 | the first row of the position, if any |
| GrowthManager.GrowthDB.MarkSample | src/lumi/experiment/db.py:857-873 | finding and setting a row is the specified marking |
| GrowthManager.GrowthDB.UsedPixelIndices | src/lumi/experiment/db.py:720-750 | the loop over growths computes the used indices |
| GrowthManager.GrowthDB.CountExperiments | src/lumi/experiment/db.py:655-664 | the count is positive exactly when the substrate has a growth, retired or not |
| GrowthManager.GrowthDB.DeletePositionSamples | src/lumi/experiment/db.py:666-679 | only the roots are left |
| GrowthManager.ExperimentManager.MaterialiseSamples | src/lumi/experiment/manager.py:340-366 | a root, kept if there is one, then a row for each position in order |
| GrowthManager.ExperimentManager.RegisterSubstrate | src/lumi/experiment/manager.py:308-338 | registering stores the row and its samples and pushes the substrate, or fails and stores nothing |
| GrowthManager.ExperimentManager.FinishExperimentRecord | src/lumi/experiment/manager.py:1146-1164 | recording adds one growth row and touches no progress |
| GrowthManager.ExperimentManager.FinishPosition | src/lumi/experiment/manager.py:402-419 | finishing retires the current position and marks its row |
| GrowthManager.ExperimentManager.ReopenPosition | src/lumi/experiment/manager.py:528-563 | reopening takes the named or last finished index, or refuses for the stated reason and changes nothing |
| GrowthManager.ExperimentManager.ResumeSubstrate | src/lumi/experiment/manager.py:368-394 | resuming rebuilds progress from the growths, marks the spent rows and pushes the substrate |
| GrowthManager.ExperimentManager.UnloadSubstrate | src/lumi/experiment/manager.py:610-620 | the current substrate leaves the stack and the database stays |
| GrowthManager.ExperimentManager.RetireExperiment | src/lumi/experiment/handlers.py:951-960 | the growth's state changes and a current substrate it belongs to has its progress restored |
| GrowthManager.ExperimentManager.UpdateSubstrate | src/lumi/experiment/manager.py:448-513 | a correction is refused or applied to copy, samples and row as specified, with its partial effect when the geometry fails |
| GrowthInvariants.InvAlways | src/lumi/experiment/manager.py:308-563 | from an empty database every run keeps samples matching positions and first copies agreeing with their rows |
| GrowthInvariants.SamplesCarryEachIndexOnce | src/lumi/experiment/manager.py:340-366 | in every run each pixel index has exactly one row, at the stored coordinate, beside one root |
| GrowthRaces.StoredIsReachableAlways | src/lumi/experiment/manager.py:295-306 | in every interleaving each stored position of each substrate puts the stage within its limits |
| GrowthInvariants.RegisterExactly | src/lumi/experiment/manager.py:308-338 | registering adds the newest substrate, on top, with nothing spent and nothing grown, and leaves the others |
| GrowthInvariants.FinishExactly | src/lumi/experiment/manager.py:402-419 | finishing spends the current index, moves on, marks that index's row and does nothing else |
| GrowthInvariants.ReopenIndexExactly | src/lumi/experiment/manager.py:528-548 | which index a reopening takes and for what it is refused, in order |
| GrowthInvariants.ReopenedExactly | src/lumi/experiment/manager.py:549-563 | reopening frees that index, unmarks its row and does nothing else |
| GrowthInvariants.ResumeExactly | src/lumi/experiment/manager.py:368-394 | resuming puts a copy of the stored substrate on top and changes no growth and no stored row |
| GrowthInvariants.UnloadUndoes | src/lumi/experiment/manager.py:610-620 | unloading takes back what registering or resuming put on top |
| GrowthInvariants.RecordExactly | src/lumi/experiment/manager.py:1146-1164 | recording uses up its pixel, or the first index, and nothing else |
| GrowthInvariants.RetireExactly | src/lumi/experiment/handlers.py:951-960 | retiring changes that growth alone, and what is loaded only if it is the substrate on top |
| GrowthInvariants.CorrectionRefusedExactly | src/lumi/experiment/manager.py:448-486 | for what a correction is refused: no substrate, an unknown one, or one of geometry for a substrate with any growth |
| GrowthInvariants.CorrectionStores | src/lumi/experiment/manager.py:488-511 | which positions a correction stores, and that it fails exactly for a spacing of zero without given positions |
| GrowthInvariants.CorrectionExactly | src/lumi/experiment/manager.py:488-513 | one that is applied starts its substrate over and touches no other |
| GrowthRaces.CommitRenumbersExactly | src/lumi/experiment/manager.py:475-513 | in every run applying a correction changes the row of a substrate with a growth if and only if it is the one corrected, a growth of it was recorded since the check, and the edit changes the row |
| GrowthRaces.GrownPositionsNeverChange | src/lumi/experiment/manager.py:475-513 | in every run without a growth recorded between a correction's check and its writes, once a substrate has any growth its stored row never changes |
| GrowthRaces.WholeOpsNeverRenumber | src/lumi/experiment/manager.py:475-513 | so it is in every run whose corrections are one step |
| GrowthRaces.GateThenCommitIsUpdate | src/lumi/experiment/manager.py:448-513 | in every run a correction whose two halves come one after the other is the whole operation |
| GrowthRaces.InvThroughRaces | src/lumi/experiment/manager.py:308-563 | samples match positions and first copies agree with their rows in every interleaving of whole operations and the two halves of corrections |
| GrowthRaces.CorrectionRacesWithRecord | src/lumi/experiment/manager.py:475-513 | from any registration and edit there is a run in which a growth ends up under positions it did not have |
| GrowthInvariants.ResumeTellsHistory | src/lumi/experiment/manager.py:368-388 | after resuming an index is spent exactly when a live growth used it and the current one is the least that is not |
| GrowthInvariants.RetireTellsHistory | src/lumi/experiment/handlers.py:951-960 | after retiring or reinstating likewise, in every run, for a substrate loaded once |
| GrowthInvariants.CurrentAgrees | src/lumi/experiment/manager.py:279-280 | in every run a current substrate loaded once has the stored positions |
| GrowthInvariants.RetireHandsBackExactly | src/lumi/experiment/handlers.py:951-960 | retiring hands an index back exactly when no other live growth used it |
| GrowthInvariants.RetireLeavesSampleMarked | src/lumi/experiment/handlers.py:951-960 | in every run, recording, finishing and retiring a growth with no other at its index frees the index and leaves its sample row saying grown |
| GrowthInvariants.ReopenKeepsGrown | src/lumi/experiment/manager.py:528-556 | a reopening that is not forced frees no index with a live growth, and none but the one it names |
| GrowthInvariants.ForcedReopenIsOverruled | src/lumi/experiment/manager.py:528-534 | a forced one does not survive resuming |
| GrowthInvariants.FinishMarksSample | src/lumi/experiment/manager.py:402-419 | in every run finishing marks the row of the finished index grown |
| GrowthInvariants.ResumeMarksSpent | src/lumi/experiment/manager.py:390-394 | in every run resuming marks the rows of spent indices grown and no others |
| GrowthInvariants.CorrectionReachesFirstCopy | src/lumi/experiment/manager.py:439-446 | after a correction a copy agrees with the row exactly when it is the first or already had the new positions |
| GrowthGeometry.SamePositionsExactly | src/lumi/experiment/manager.py:183-190 | two geometries give the same positions exactly when they have as many to a side and as far apart |
| GrowthGeometry.StoresAsFromRowExactly | src/lumi/experiment/manager.py:488-511 | on any stage a correction stores what it would from the stored row exactly when its positions are given or the stage sees the same positions of the two edited geometries |
| GrowthGeometry.StoresAsFromRowByLayout | src/lumi/experiment/manager.py:488-511 | on a stage that reaches all of these positions: or the two have the same layout |
| GrowthGeometry.UneditedAgreeSuffices | src/lumi/experiment/manager.py:488-511 | it does, on any stage, when the fields it leaves alone agree |
| GrowthGeometry.WidthsWithOneRow | src/lumi/experiment/manager.py:183-190 | different widths can have one row of positions |
| GrowthGeometry.RefusalKeepsGeometryExactly | src/lumi/experiment/manager.py:488-511 | a refused correction leaves the first copies with the stored geometry exactly when none is loaded or it would have changed nothing |
| GrowthGeometry.GeometryAgreesAlways | src/lumi/experiment/manager.py:488-511 | in every run without a correction refused for its geometry the first copies have the stored geometry |
| GrowthGeometry.CorrectionsStartFromRow | src/lumi/experiment/manager.py:488-511 | so in those runs every correction stores what it would from the stored row |
| GrowthGeometry.RefusedCorrectionLingers | src/lumi/experiment/manager.py:488-511 | for any loaded substrate without growths a refused correction decides the next one's positions through the copy |
| Framing.BigEndianInverts | src/lumi/api/bridge.py:50-54 | the four length bytes are read back |
| Framing.MostSignificantFirst | src/lumi/api/bridge.py:50-54 | the most significant byte comes first |
| Framing.PackFrame | src/lumi/codegen/ts_client.py:29-38 | the browser's buffer holds the wrapped length, the header and the payload |
| Framing.BridgeFrameRoundTrip | src/lumi/api/bridge.py:48-56 | a frame is packed exactly when its header fits, and then unpacks to the same header and payload |
| Framing.BrowserFrameRoundTrip | src/lumi/codegen/ts_client.py:29-46 | the browser's frames come back exactly when the header is below 2^32 bytes |
| Framing.SameFrames | src/lumi/codegen/ts_client.py:29-38 | both languages write the same frame |
| Framing.UnpackThenPack | src/lumi/api/bridge.py:53-56 | packing what was unpacked restores the frame exactly when it holds the header it announces |
| Framing.UnpackExactly | src/lumi/codegen/ts_client.py:41-46 | what any frame is taken for, one shorter than it announces included |
| Framing.WireCarriesMessages | src/lumi/codegen/ts_client.py:29-46 | with an invertible codec each side receives what the other sent |
| Transport.CallIdInjective | src/lumi/codegen/ts_client.py:122 | no two calls share an identifier |
| Transport.LumiTransport.Rpc | src/lumi/codegen/ts_client.py:121-139 | a call on an open socket becomes pending with its timer; any other fails at once and still uses up its number |
| Transport.LumiTransport.OnTimer | src/lumi/codegen/ts_client.py:132-135 | the timer drops the entry and rejects |
| Transport.LumiTransport.OnMessage | src/lumi/codegen/ts_client.py:94-115 | a reply settles the call under its identifier and nothing else; other messages change nothing |
| Transport.LumiTransport.RejectAll | src/lumi/codegen/ts_client.py:85-92 | every waiting call is rejected, its timer cleared, and none is left |
| Transport.PendingIsUnsettledAlways | src/lumi/codegen/ts_client.py:62-139 | in every interleaving a call settles at most once and pending holds exactly the unsettled ones |
| Transport.CloseSettlesAll | src/lumi/codegen/ts_client.py:79-92 | once the socket has closed every call made has settled exactly once |
| Transport.PendingCanSettle | src/lumi/codegen/ts_client.py:132-136 | a pending call's timer is armed and would settle it |
| Transport.AnsweredOnce | src/lumi/api/bridge.py:201-250 | the bridge answers a request at most once |
| Transport.ResolvedCarriesOwnReply | src/lumi/codegen/ts_client.py:102-114 | a call settled by the bridge carries the answer to that very request |
| Transport.SettlesAsAnswered | src/lumi/codegen/ts_client.py:102-114 | it is rejected with the error's text exactly when that answer is an error, and otherwise resolves with its body, or metadata and bytes |
| Transport.CloseRejectsPending | src/lumi/codegen/ts_client.py:79-92 | in every run a close rejects exactly the pending calls, with the close, and leaves the settled ones |
| Transport.CallsExactly | src/lumi/codegen/ts_client.py:121-139 | in every run a call on an open socket is pending and on the way and any other is rejected at once |
| Transport.RepliesExactly | src/lumi/codegen/ts_client.py:102-109 | a reply settles the one call waiting under its identifier, anything else none |
| Transport.MessagesMove | src/lumi/codegen/ts_client.py:94-115 | requests are served and messages delivered one by one, oldest first |
| Transport.SocketMoves | src/lumi/codegen/ts_client.py:67-92 | a close loses what is on the way and a new connection starts with nothing pending |
| BridgeSession.ChannelsClashExactly | src/lumi/api/bridge.py:295 | two names reach different channels of a capability exactly when it has both a stream and an update |
| BridgeSession.SameTargetSameChannel | src/lumi/api/bridge.py:337-338 | for a valid capability keying by target replaces a subscription by one to the same channel |
| BridgeSession.Bridge.Subscribe | src/lumi/api/bridge.py:287-340 | a subscription is refused with an error, or opens a client that takes the target's place and releases the one before, or that stays open when something raises half-way |
| BridgeRequests.SubscriptionsExactly | src/lumi/api/bridge.py:287-307 | for every registry, role, target and name: when a subscription is refused for its target or its name, raises, is forbidden, or goes to which channel, in terms of the role's read rule for that channel's key |
| BridgeRequests.ViewersNeverGetMasks | src/lumi/api/bridge.py:297-307 | in no registry does a viewer's subscription open the detection stream |
| BridgeSession.SubscribingHolds | src/lumi/api/bridge.py:330-340 | in every run a subscription that is granted and comes out ready is held under its target, the one it replaces is released once, and the others are kept |
| BridgeSession.FailedSubscriptionsExactly | src/lumi/api/bridge.py:330-338 | one that does not come out ready holds nothing, and leaks its client exactly when its channel was open |
| BridgeSession.Bridge.Request | src/lumi/api/bridge.py:201-285 | every request that is decided gets one reply; size, target, permission, op and body are checked in this order, and a verb without a call is acknowledged |
| BridgeSession.Bridge.Unsubscribe | src/lumi/api/bridge.py:342-346 | the target's client is let go and released |
| BridgeSession.UnsubscribingReleases | src/lumi/api/bridge.py:342-346 | in every run unsubscribing releases the target's client once and keeps the others |
| BridgeSession.Bridge.Send | src/lumi/api/bridge.py:372-385 | nothing is sent once closed, and a failed send closes |
| BridgeSession.Bridge.Cleanup | src/lumi/api/bridge.py:392-403 | the session closes, holds nothing and has released all it held |
| BridgeSession.CleaningUpEnds | src/lumi/api/bridge.py:392-403 | in every run cleaning up releases once each client held, and no frame is taken after it |
| BridgeSession.SendsExactly | src/lumi/api/bridge.py:372-385 | a send counts exactly when it goes through on an open session, and one that fails closes it |
| BridgeSession.OwnedAlways | src/lumi/api/bridge.py:287-403 | in every run each client whose channel was opened is held under one target, released once, or leaked, and never two of these |
| BridgeSession.AllReleasedInTheEnd | src/lumi/api/bridge.py:392-403 | when nothing raises once a channel is open, a finished session has released every client exactly once |
| BridgeSession.LeakedIsNeverReleased | src/lumi/api/bridge.py:330-338 | a client for which something raised once its channel was open is never released |
| BridgeSession.ClosedIsFinal | src/lumi/api/bridge.py:372-385 | a closed session sends nothing more |
| BridgeRequests.RequestRule | src/lumi/api/bridge.py:219-223 | the role's rule lets a request key pass exactly when that very capability declares an op of this name the role may send |
| BridgeRequests.DeclaresExactly | src/lumi/contracts/policy.py:136-165 | the ops a role may send: a viewer those of the read-only list, an operator any but on the supervisor, where it too may only read |
| BridgeRequests.RefusalsExactly | src/lumi/api/bridge.py:201-250 | each refusal of a request and exactly when it is given |
| BridgeRequests.RequestsPassGateExactly | src/lumi/api/bridge.py:201-223 | a viewer's or operator's request gets past the permission check exactly when it fits, its target is declared and that capability declares the op (up to a final newline) and the role may send it |
| BridgeRequests.ControlsPassGateExactly | src/lumi/api/bridge.py:201-223 | a control verb exactly when it is one of the role's (up to a final newline) |
| BridgeRequests.RequestsForwardedExactly | src/lumi/api/bridge.py:201-259 | for every registry of plain names it is forwarded exactly when also the body can be read and the capability has an op of exactly that name, whose permission is its own or that of its name without a final newline |
| BridgeRequests.PlainRequestsForwardedExactly | src/lumi/api/bridge.py:201-259 | so where no op's name ends in a newline, exactly when the capability has the op and it is read-only, or the role is operator and the capability not the supervisor |
| BridgeRequests.NewlineStopsAtLookup | src/lumi/api/bridge.py:248-250 | a permitted op with a newline after it is answered with an error |
| BridgeRequests.ControlsForwardedExactly | src/lumi/api/bridge.py:201-285 | a control verb is forwarded exactly when it is start, stop or state |
| BridgeRequests.OthersAreAcknowledged | src/lumi/api/bridge.py:276-285 | it is acknowledged without a call exactly when it is an operator's config or a verb of the role with a newline after it |
| BridgeRequests.AdminsForwardedExactly | src/lumi/api/bridge.py:201-285 | in any registry an administrator's request is forwarded exactly when it fits, its target is declared, and its capability has the op and the body can be read, or the verb has a call |
| Contracts.CheckCapability | src/lumi/contracts/spec.py:184-210 | the checks accept exactly the valid capabilities and name the offence |
| Contracts.ShapeFitsExactly | src/lumi/contracts/spec.py:184-198 | ops go with every kind but a stream, a stream with stream and duplex, an update channel with pubsub |
| Contracts.CheckContract | src/lumi/contracts/spec.py:245-250 | a contract is accepted exactly when its capabilities have different names |
| Contracts.FindOp | src/lumi/contracts/spec.py:212-216 | an op is found exactly when the capability has one of that very name |
| Contracts.OneChannelAtMost | src/lumi/contracts/spec.py:187-198 | a valid capability has no stream beside an update channel |
| Contracts.KeyWords | src/lumi/contracts/spec.py:79-91 | for any names, the words of every request and control key and pattern |
| Contracts.HashMatches | src/lumi/contracts/spec.py:79-91 | a hash matches any number of words, none included |
| Contracts.RequestBindingExactly | src/lumi/contracts/spec.py:79-88 | for any names, dots included, a wildcard-free request binding takes a request key if and only if the two have the same base name |
| Contracts.ChannelBindingExactly | src/lumi/contracts/spec.py:57-101 | a channel binding takes an op key if and only if its base ends in that key's kind and the op has the channel's name |
| Contracts.OpBindingOnChannelExactly | src/lumi/contracts/spec.py:57-101 | a wildcard binding takes a channel key if and only if that key's base is the binding's prefix |
| Contracts.RequestBindingMatchesOwn | src/lumi/contracts/spec.py:79-88 | so with plain names a request binding takes exactly its own capability's keys |
| Contracts.RequestKeyMatchesNothingElse | src/lumi/contracts/spec.py:57-101 | a plain capability's control, state, publish and update bindings take no request key of any capability |
| Contracts.RequestBindingTakesNothingElse | src/lumi/contracts/spec.py:57-101 | a request binding takes no control, state, publish or update key |
| Contracts.ExactlyOneBindingMatches | src/lumi/contracts/spec.py:218-227 | in a registry of different base names each request key matches its own request binding and no other |
| Contracts.RequestsStayApartExactly | src/lumi/contracts/spec.py:218-227 | and only in such a one: request keys each match one binding if and only if the base names are different |
| Contracts.PlainNamesAreDistinct | src/lumi/contracts/spec.py:218-250 | a registry of plain names, different as the contracts ask, has different base names |
| Contracts.DottedNamesCollide | src/lumi/contracts/spec.py:218-227 | two such names whose requests collide |
| RegexText.EscapeIsRead | src/lumi/contracts/policy.py:133 | an escaped key reads as that key |
| RegexText.AlternationIsRead | src/lumi/contracts/policy.py:129-133 | the alternation reads back as the sorted set of its keys |
| RegexText.SortedSetAscends | src/lumi/contracts/policy.py:129-133 | the alternatives are written in ascending order |
| RegexText.AlternationMatches | src/lumi/contracts/policy.py:129-133 | it matches exactly those keys, each also with a newline after it |
| RegexText.EmptyAlternationMatches | src/lumi/contracts/policy.py:131-132 | the expression for no keys matches the empty key |
| Policy.AddCapability | src/lumi/contracts/policy.py:145-165 | one pass of the loop appends the specified keys, taking the masks out again for a viewer |
| Policy.RolePermissions | src/lumi/contracts/policy.py:136-203 | the loops over the registry build the specified permissions, or fail where the removal does |
| PolicyRules.WriteListExactly | src/lumi/contracts/policy.py:159-165 | for every registry an exchange's write list is the rule's set of keys |
| PolicyRules.ReadListExactly | src/lumi/contracts/policy.py:147-158 | for every registry an exchange's read list is the rule's set of keys |
| PolicyRules.ViewerFailsExactly | src/lumi/contracts/policy.py:155-158 | for every registry the viewer's permissions fail to build exactly when a detection capability of detection has no stream |
| PolicyRules.PermitsExactly | src/lumi/contracts/policy.py:239-250 | for every registry, exchange and key publishing is permitted exactly by the role's rule |
| PolicyRules.PermitsReadExactly | src/lumi/contracts/policy.py:253-258 | for every registry, exchange and key subscribing likewise |
| PolicyRules.RolesAreContained | src/lumi/contracts/policy.py:136-226 | the viewer's rule is within the operator's and that within the administrator's |
| PolicyRules.PermitsIsMonotone | src/lumi/contracts/policy.py:239-250 | what a lesser role may publish a greater one may |
| PolicyRules.PermitsReadIsMonotone | src/lumi/contracts/policy.py:253-258 | what a lesser role may read a greater one may, for every registry |
| PolicyRules.MasksAreKeptFromViewers | src/lumi/contracts/policy.py:155-158 | for every registry a viewer never reads the detection stream |
| TsReading.TypeReadsBack | src/lumi/codegen/ts_client.py:177-214 | the printed expression, with brackets binding tighter than bars, denotes the schema's translation for every nesting |
| TsTypes.LastSegmentExactly | src/lumi/codegen/ts_client.py:177-181 | a reference prints what follows the last slash of its path |
| TsTypes.ArraysPrintExactly | src/lumi/codegen/ts_client.py:205-208 | an array's items are in parentheses exactly when their text shows a bar |
| TsTypes.JoinExactly | src/lumi/codegen/ts_client.py:182-186 | members are written in their order with bars between |
| TsTypes.DistinctKeepsFirsts | src/lumi/codegen/ts_client.py:186 | no member is written twice and each stays where it first occurred |
| TsTypes.LiteralsStayApart | src/lumi/codegen/ts_client.py:187-195 | different literals print differently |
| TsReading.SameTextSameMeaning | src/lumi/codegen/ts_client.py:182-186 | schemas printed alike mean the same |
| TsReading.DistinctReads | src/lumi/codegen/ts_client.py:186 | removing repeated members changes nothing |
| TsReading.UnionsShowBars | src/lumi/codegen/ts_client.py:205-208 | the test for parentheses never misses a union |
| TsReading.ParenthesesAreNeeded | src/lumi/codegen/ts_client.py:205-208 | without them an array of a union reads as something else |
| Timestamps.StampIsOfSecond | src/lumi/experiment/db.py:79-84 | every second from 1970 through 9999 has a valid date and time, which is that second's |
| Timestamps.DaysBeforeExactly | src/lumi/experiment/db.py:39-84 | days since 1970 are 365 a year and the leap days of the Gregorian rule |
| Timestamps.MonthLengthExactly | src/lumi/experiment/db.py:39-84 | months have 30 and 31 days in turn, July and August both long, but for February |
| Timestamps.EpochFollowsStamps | src/lumi/experiment/db.py:21-24 | earlier dates and times are earlier seconds |
| TimeText.EpochRoundTrip | src/lumi/experiment/db.py:39-84 | reading the stored text of a second gives that second |
| TimeText.TextRoundTrip | src/lumi/experiment/db.py:39-84 | every text of the stored form is the stored text of the second it is read as |
| TimeText.StoredForm | src/lumi/experiment/db.py:79-84 | the stored text is year, month and day with hyphens, a space, and hour, minute and second with colons |
| TimeText.BeforeExactly | src/lumi/experiment/db.py:456-464 | texts are ordered by their first difference, a beginning before what goes on from it |
| TimeText.TextOrderIsTimeOrder | src/lumi/experiment/db.py:21-24 | stored texts are in the order of their seconds |
| TimeText.WindowSelectsExactly | src/lumi/experiment/db.py:456-464 | with whole-second bounds comparing texts selects exactly the window |
| TimeText.FractionalSinceExactly | src/lumi/experiment/db.py:456-464 | a lower bound is exact if and only if it is whole or rounds up to the next second |
| TimeText.FractionalUntilExactly | src/lumi/experiment/db.py:456-464 | an upper bound is exact if and only if it does not round up |
| Paging.ListingIsExact | src/lumi/experiment/db.py:472-522 | the listing is the selected rows, each once, in the order by time and key, and as many as are counted |
| Paging.ListingFollowsTime | src/lumi/experiment/db.py:491-502 | of two rows listed the further one is the later in seconds, or the earlier when the listing descends, with no time before any and the key among equal ones |
| Paging.PageExactly | src/lumi/experiment/db.py:498-502 | which rows a page holds, for any limit and offset |
| Paging.WindowIsExact | src/lumi/experiment/db.py:437-470 | a row is selected exactly when it has a time in the window and passes the other filters |
| Paging.FollowPages | src/lumi/experiment/handlers.py:848-856 | following has_more gives the whole listing exactly when the limit is at most 1000 or no more rows match |
| Paging.SmallLimitNeverEnds | src/lumi/experiment/handlers.py:848-856 | with a limit below 1 it never ends |
| Handler.ExperimentHandler.ClaimMotion | src/lumi/experiment/handlers.py:382-389 | the claim is taken exactly when nothing held it |
| Handler.ExperimentHandler.ReleaseMotion | src/lumi/experiment/handlers.py:391-392 | the claim is dropped |
| Handler.ExperimentHandler.Push | src/lumi/experiment/handlers.py:353-359 | a push queues the whole picture and changes nothing else |
| Handler.ExperimentHandler.StartTask | src/lumi/experiment/handlers.py:402-433 | a task becomes current and is announced; a moving one is refused untouched while the claim is held |
| Handler.ExperimentHandler.EndTask | src/lumi/experiment/handlers.py:411-454 | a moving task drops the claim and the current task clears in one step |
| Handler.ExperimentHandler.SetPending | src/lumi/experiment/handlers.py:571-573 | the confirmation is set and announced |
| Handler.ExperimentHandler.ClearPending | src/lumi/experiment/handlers.py:575-577 | the confirmation is cleared and announced |
| Handler.ExperimentHandler.Confirm | src/lumi/experiment/handlers.py:1412-1416 | only the confirmation that is pending can be confirmed; any other is an error that changes nothing |
| Handler.ExperimentHandler.NextUpdate | src/lumi/experiment/handlers.py:347-351 | events leave the queue in the order they were pushed |
| Handler.ExperimentSession.HandleUpdate | src/lumi/experiment/client.py:109-117 | an update overwrites the session's picture and keeps the last result unless it brings one |
| Handler.FoldAppend | src/lumi/experiment/client.py:109-117 | folding one more event is one more update |
| Handler.FoldKeepsLast | src/lumi/experiment/client.py:109-117 | for every sequence of events a session has the last event's picture and the last result any event brought |

## Left out

- Floating point: positions, readings and times are reals, so rounding is not modelled.
- RabbitMQ, websockets, OAuth and the JSON and array encoders: messages are steps, a role is a given value, and a
  header codec is assumed invertible.
- Cancellation of a task by asyncio, but for a start: `FailStart` in `DriverRuns` stands for a request cancelled while its
  journal row is opened (`src/lumi/experiment/handlers.py:417-424`), since the journal itself catches every `Exception`
  (`src/lumi/experiment/journal.py:123-137`).
- Wall-clock time: a timeout is a step that may come at any moment.
- The camera, fiducial detection and chamber firmware: readings are inputs of the alignment, updates inputs of the runner.
- The pixel-check operations and `update_sample`, which edit positions or coordinates outside these invariants, and
  `retire_substrate`, which only sets a label.
- Rows written by older schemas (positions stored as NULL, substrates without samples): runs start from an empty
  database, though resuming a substrate without samples is modelled.
- The suspension points inside one manager operation, but for the one `GrowthRaces` opens between a correction's count
  and its writes: every other operation, and the writes of a correction, are one step.
- Other text forms `to_epoch` accepts (fractions, offsets, dates alone): only the stored form is modelled.
- Quotes inside literals of generated types, and the interfaces generated around the type expressions.
- The equality filters and the `LIKE` search of a listing are one opaque test on rows.
- `connect` called while an earlier socket is still open, and handlers of streams in the browser.
- The bus calls behind `_request` and their encodings: what they answer is an input of `Transport`, and whether a body and
  payload read as the op's request is an input of `BridgeSession`. An answer that cannot be packed, which gets no reply, is
  not modelled.
- A call whose body cannot be serialised, or whose frame cannot be built: the browser's `packFrame` then throws after the call
  was made pending (`src/lumi/codegen/ts_client.py:131-138`), so that call is rejected and stays in `pending` until its timer.
  `Transport.PendingIsUnsettledAlways` is about calls whose frame is built.
- A begin of the journal that is cancelled or whose commit fails is one that never settles; its row may still be stored.
- Paging.FollowPages: asks for a limit of at least 1, because below that following the pages does not end, which
  `SmallLimitNeverEnds` proves.
