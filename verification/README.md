# A verified model of the auto-scaled-workers controller

The controller watches the task queues of a worker deployment and starts, resizes and stops workers for it. Its code
forms one pipeline, and so does this project: a spec says which scaling group serves which task types in which region
(`Routing`), updates edit that spec through field masks (`SpecUpdate`), a hook batches task-add signals (`SignalBatcher`),
a long-running workflow queues and hands over those signals and runs timers over a chain of continue-as-new runs
(`RunLoop`), activities fold the answers of the groups' scaling algorithms (`PullStats`) and the workflow dispatches the
resulting actions (`ActionDispatch`). The two scaling algorithms are `RateBased` and `NoSync`; `RateBasedRules` says in
plain arithmetic what each rate-based decision does, and `RateBasedRuns` and `NoSyncRuns` prove what holds over whole runs.
`Sizing` is the worker-count formula that the Go code and the browser simulator share, and `Simulator` (with its invariant
in `SimulatorState`) is the engine of that simulator.

How the pieces are modelled:

- The run loop keeps one history of all that happened, the point where a run leaves its loop included; a fold over it is the
  reference bounded queue and the account of signals, and the invariant ties queue, channel, remaining script, poll timer and
  end-of-run flags to that fold.
- Code that edits state step by step is a method, or a class with methods, and is proved against a function or an explicit
  description of the new state. A persisted status is a map of loosely typed slots; a *view* is what later code reads from it.
- Loops over Go maps take the keys in an arbitrary order, so what is proved holds for every iteration order.
- The environment is adversarial: the run loop is driven by an arbitrary finite script of arrivals, deletions, suggestions
  to continue as new, elapsed time and firing timers; activity answers, random durations, form inputs and the order in which
  the simulator takes events are arbitrary too.
- Rates are reals. A square root is a non-negative number with the right square; `Sizing.HalfinWhittIsCeilOfSqrt` ties the
  search by inequality back to the source's formula.
- Go's truncation toward zero when a stored float is read as an integer is written out; `int64` and `int32` ranges appear
  where the code checks them.

`dafny verify dfyconfig.toml` checks the whole project (Dafny 4.11).

## Model

| member | source | states |
|---|---|---|
| Sizing.UtilizationDesired | wci/workflow/scaling_algorithm/rate_based.go:753-758 | The utilization count is the threshold of the utilization inequality: a count meets it if and only if it is at least this one |
| Sizing.HalfinWhittDesired | wci/workflow/scaling_algorithm/rate_based.go:754-760 | The square-root-staffing count is the threshold of the staffing inequality, in both directions |
| Sizing.HalfinWhittIsCeilOfSqrt | wci/workflow/scaling_algorithm/rate_based.go:754-760 | The count found from the inequality is the ceiling of load + beta * root for whatever root squares to the load |
| Sizing.DesiredCount | wci/workflow/scaling_algorithm/rate_based.go:738-779 | The desired count is the least count in [min, max] that meets both inequalities, or max if none below it does |
| Sizing.SimulatorDesired | docs/simulators/workerset-ewma/app.js:476-510 | The simulator's base-plus-spare plan is the same number as the Go code's on the same inputs |
| Sizing.DesiredIsMonotone | wci/workflow/scaling_algorithm/rate_based.go:738-779 | More arrivals, the presence of backlog or slower workers never lower the desired count |
| Sizing.DesiredCountIsTarget | wci/workflow/scaling_algorithm/rate_based.go:738-779 | Without dividing: the desired count is the least n in [min, max] with n * capacity * utilization >= required, n * capacity >= required and (n * capacity - required)^2 >= beta^2 * required * capacity, required being the arrival rate plus the drain rate while there is backlog; max if none does |
| Sizing.TargetIsUnique | wci/workflow/scaling_algorithm/rate_based.go:738-779 | There is only one such count |
| RateBased.ValidateConfig | wci/workflow/scaling_algorithm/rate_based.go:200-306 | The ordered checks accept exactly the configurations satisfying an order-free predicate |
| RateBased.Cleaned | wci/workflow/scaling_algorithm/rate_based.go:597-650 | Cleaning leaves only well-formed slots and is the identity on a status that has only those |
| RateBased.CleanState | wci/workflow/scaling_algorithm/rate_based.go:597-650 | The four deleting passes keep exactly the slots that are individually valid, for any stored status |
| RateBased.JsonTripPreserves | wci/workflow/scaling_algorithm/rate_based.go:831-861 | After integers have turned into floats a clean status is still a fixed point of cleaning and reads the same |
| RateBased.AggregateSums | wci/workflow/scaling_algorithm/rate_based.go:652-685 | The aggregate is the sum of backlog and both rates over the queues that report finite, non-negative numbers, and names exactly the queues that are there and do not |
| RateBased.AggregateMetrics | wci/workflow/scaling_algorithm/rate_based.go:652-685 | The accumulating loop skips nil queues, reports unusable ones and sums the rest |
| RateBased.BlendIsBetween | wci/workflow/scaling_algorithm/rate_based.go:693-699 | One smoothing step stays between the previous value and the sample |
| RateBased.UpdateEwma | wci/workflow/scaling_algorithm/rate_based.go:687-699 | Smoothing writes both rates, takes a first sample as it is, and leaves every other reading alone |
| RateBased.SnapIdleToZero | wci/workflow/scaling_algorithm/rate_based.go:701-716 | Rates drop to zero exactly when data says nothing is there and some rate is not zero yet; the flag says whether anything changed |
| RateBased.UpdateCapacity | wci/workflow/scaling_algorithm/rate_based.go:718-736 | The capacity estimate is blended with the dispatch rate per planned worker, keeps positive, and is left alone without workers or dispatches |
| RateBased.PollMovesTowardDesired | wci/workflow/scaling_algorithm/rate_based.go:511-560 | Every poll moves the count toward the desired one without passing it, each gate blocks exactly when its timer is running, and the max-count and min-count outcomes cannot occur |
| RateBased.ProcessTaskAdd | wci/workflow/scaling_algorithm/rate_based.go:308-370 | On the stored map the call is the task-add decision on the cleaned reading, returns a clean status and exactly its actions and throttle count |
| RateBased.ProcessDeferredScalingDecision | wci/workflow/scaling_algorithm/rate_based.go:372-438 | On the stored map the call samples capacity exactly when it can, and fails exactly when the getter is missing or fails while workers are planned |
| RateBased.ProcessMetricsPoll | wci/workflow/scaling_algorithm/rate_based.go:440-595 | On the stored map the call is the poll that RateBasedRules.PollByRule and PollEstimatesByRule describe, with the blocked reason reported |
| RateBased.TaskQueueRegistrationActions | wci/workflow/scaling_algorithm/rate_based.go:788-804 | Registration asks for the planned count clamped to the bounds and to at least one, and stores what it asks for |
| RateBased.InactiveGroupActions | wci/workflow/scaling_algorithm/rate_based.go:808-817 | An inactive group is left with a zero count and nothing else, and is resized to zero exactly if workers were stored |
| RateBasedRules.PollByRule | wci/workflow/scaling_algorithm/rate_based.go:511-560 | A poll by its estimates: let the target be the least count in the bounds that carries the smoothed arrival rate plus the drain rate while there is backlog, at the positive stored capacity or the configured one. Below it the count rises, to the target or by the step cap, exactly if the scale-up cooldown is over; above it it falls by one exactly if quiet period and scale-down cooldown are over; at it nothing happens |
| RateBasedRules.PollEstimatesByRule | wci/workflow/scaling_algorithm/rate_based.go:440-510 | The estimates of a poll in plain arithmetic: smoothing by alpha with a first sample as it is, zero rates on idle data, no change without data, and dispatch per worker blended into the capacity exactly from the backlog threshold on |
| RateBasedRules.TaskAddByRule | wci/workflow/scaling_algorithm/rate_based.go:308-370 | A no-sync task-add stamps its time and asks for a deferred decision; it adds one worker, and is not throttled, exactly below the maximum with the cooldown over; any other task-add does nothing |
| RateBasedRules.DeferredByRule | wci/workflow/scaling_algorithm/rate_based.go:372-438 | A deferred decision fails exactly without a getter or when workers are planned and the fetch fails; all it changes is the capacity, by dispatch per planned worker |
| RateBasedRules.RegistrationByRule | wci/workflow/scaling_algorithm/rate_based.go:788-804 | Registration takes the count to the nearest one within the bounds that is not zero, and changes only that |
| RateBasedRules.CleanedByRule | wci/workflow/scaling_algorithm/rate_based.go:597-650 | Slot by slot what cleaning keeps: whole non-negative int32 counts, finite rates, finite positive capacities, whole non-negative int64 times |
| RateBasedRules.ViewByRule | wci/workflow/scaling_algorithm/rate_based.go:781-786 | The reading of a clean status: the number in each slot, initial_count or zero or nothing where it is missing |
| RateBasedRuns.CountStaysInBounds | wci/workflow/scaling_algorithm/rate_based.go:308-595 | Over any run of task-adds, deferred decisions, polls and registrations the count stays in [min, max] |
| RateBasedRuns.ResizesReproduceCount | wci/workflow/scaling_algorithm/rate_based.go:335-370 | Applying the emitted resizes in order to a pool that began at the stored count gives the stored count |
| RateBasedRuns.FreshRun | wci/workflow/scaling_algorithm/rate_based.go:781-786 | With nothing stored the replayed pool begins at initial_count and ends at the stored count, inside the bounds |
| RateBasedRuns.ScaleUpStep | wci/workflow/scaling_algorithm/rate_based.go:335-370 | A call that adds workers finds the scale-up cooldown over, stamps its time and adds at most the step cap |
| RateBasedRuns.ScaleUpRateBound | wci/workflow/scaling_algorithm/rate_based.go:511-539 | Any window of T ms adds at most max_scale_up_step * (T / scale_up_cooldown + 1) workers, whatever order the clock readings come in |
| RateBasedRuns.ScaleDownStep | wci/workflow/scaling_algorithm/rate_based.go:540-556 | Only a poll lowers the count, by one, after the cooldown and the quiet period |
| RateBasedRuns.ScaleDownRateBound | wci/workflow/scaling_algorithm/rate_based.go:540-556 | Any window of T ms sees at most T / scale_down_cooldown + 1 scale-downs |
| RateBasedRuns.ScaleDownRespectsLatestNoSync | wci/workflow/scaling_algorithm/rate_based.go:540-556 | With no assumption on the clock, no scale-down comes within no_sync_quiet of the latest no-sync task-add |
| RateBasedRuns.QuietIsKeptExactly | wci/workflow/scaling_algorithm/rate_based.go:335-370 | The exact condition, readable off the stored slots: the quiet period of a no-sync task-add anywhere in a run is kept at its end if and only if the latest stored reading is not earlier than its own, or nothing could be scaled down within it anyway (count at the minimum, or the cooldown covers it) |
| RateBasedRuns.NoScaleDownWhileNotQuiet | wci/workflow/scaling_algorithm/rate_based.go:540-556 | If no later no-sync task-add has stored an earlier reading, whatever other calls read, no scale-down comes within no_sync_quiet of this one, wherever in the run it was |
| RateBasedRuns.LatestIsGreatest | wci/workflow/scaling_algorithm/rate_based.go:335-338 | A clock that the no-sync task-adds read in order is enough for that: the latest reading is then the greatest |
| RateBasedRuns.StepBackBreaksQuiet | wci/workflow/scaling_algorithm/rate_based.go:335-338 | Otherwise it is false of the code: a step back of the clock by any amount, a millisecond included, between two no-sync task-adds lets an idle poll scale down within the quiet period of the first |
| RateBasedRuns.IdleRunScalesDownByOne | wci/workflow/scaling_algorithm/rate_based.go:294-303 | Once quiet and cooled down, k idle polls at the validated spacing leave exactly max(min_count, count - k) workers |
| RateBasedRuns.RatesStayWithinSamples | wci/workflow/scaling_algorithm/rate_based.go:687-716 | The smoothed rates never leave the range of the samples seen, the idle snap included |
| RateBasedRuns.CapacityStaysWithinObservations | wci/workflow/scaling_algorithm/rate_based.go:718-736 | The capacity estimate stays positive and between the extremes of its start and the observed ratios, on polls and deferred decisions |
| RateBasedRuns.SteadyErrorDecaysGeometrically | wci/workflow/scaling_algorithm/rate_based.go:687-699 | Under a constant sample the smoothing error after k polls is exactly (1 - alpha)^k times the first one |
| RateBasedRuns.RunStored | wci/workflow/scaling_algorithm/rate_based.go:308-595 | Calling the real entry points on the stored map, with a JSON trip between calls, ends in a status whose reading, and emits the actions, that the run theorems are about |
| NoSync.ValidateConfig | wci/workflow/scaling_algorithm/no_sync_match.go:139-209 | The ordered checks accept exactly the configurations satisfying an order-free predicate, defaults included |
| NoSync.JsonTripPreserves | wci/workflow/scaling_algorithm/no_sync_match.go:211-336 | Whatever is stored reads the same after integers have turned into floats |
| NoSync.UpdateDetector | wci/workflow/scaling_algorithm/no_sync_match.go:338-385 | The slot edits realise the detector's transition for one queue type, touch no other queue type and no timer, and report suppression |
| NoSync.ProcessTaskAdd | wci/workflow/scaling_algorithm/no_sync_match.go:211-259 | On the stored map the call invokes a worker exactly when it is a no-sync add that is neither suppressed nor in the cooloff, and counts the throttled ones |
| NoSync.ProcessMetricsPoll | wci/workflow/scaling_algorithm/no_sync_match.go:265-336 | On the stored map the loop over queue types is the poll that NoSyncRuns.PollInvokesIff describes; it invokes at most one worker and moves all three detectors |
| NoSyncRuns.InvocationStep | wci/workflow/scaling_algorithm/no_sync_match.go:234-256 | Consecutive invocations, from either path and any queue type, are at least min(cooloff, lifetime) apart |
| NoSyncRuns.InvocationRateBound | wci/workflow/scaling_algorithm/no_sync_match.go:289-325 | Any window of T ms holds at most T / min(cooloff, lifetime) + 1 invocations |
| NoSyncRuns.RefreshIsNeverSuppressed | wci/workflow/scaling_algorithm/no_sync_match.go:308-325 | While polls see backlog and events come at most P after a poll, the latest invocation is never more than lifetime + P old, suppressed or not: a refresh always comes |
| NoSyncRuns.DetectorRemembersHistory | wci/workflow/scaling_algorithm/no_sync_match.go:338-385 | The stored triple is reset unless the history ends in an in-band stretch, and then holds that stretch's opening time and rate and the deadline that its last confirming poll set, zero without one; the band is spelled out in rates and epsilon |
| NoSyncRuns.SuppressionIffConfirmedStretch | wci/workflow/scaling_algorithm/no_sync_match.go:368-385 | A poll suppresses a queue type if and only if the stretch of in-band polls it ends is at least the confirm window long |
| NoSyncRuns.PollInvokesIff | wci/workflow/scaling_algorithm/no_sync_match.go:286-336 | From the history alone: a poll invokes a worker if and only if some type it carries has backlog above the threshold with the cooloff over and the stretch ending here missing or shorter than the confirm window, or any backlog with the enabled lifetime over; it asks for the suppression interval exactly while some type is confirmed |
| NoSyncRuns.TaskAddInvokesIff | wci/workflow/scaling_algorithm/no_sync_match.go:234-256 | From the history alone: a task-add invokes a worker if and only if it carries a no-sync match, the cooloff is over and no poll of its type's current stretch has confirmed within suppress_scale_up_ms; otherwise its batch is throttled |
| NoSyncRuns.HeldBackIffRecentlyConfirmed | wci/workflow/scaling_algorithm/no_sync_match.go:240-249 | A type is held back if and only if its current stretch has been confirmed less than suppress_scale_up_ms ago, with or without an epsilon |
| NoSyncRuns.LatestIsStored | wci/workflow/scaling_algorithm/no_sync_match.go:234-256 | The stored scale-up time is that of the run's latest invocation, zero before the first |
| NoSyncRuns.SuppressionTakesThreePolls | wci/workflow/scaling_algorithm/no_sync_match.go:184-199 | Under a validated configuration at the regular cadence, suppression needs an in-band poll between the opening and the confirming one |
| NoSyncRuns.SuppressionHasNoGap | wci/workflow/scaling_algorithm/no_sync_match.go:327-333 | Until the next poll that a suppressing poll asked for, every task-add of that type is held back |
| NoSyncRuns.HeldBackNearConfirmingPoll | wci/workflow/scaling_algorithm/no_sync_match.go:240-249 | A held-back task-add comes within suppress_scale_up_ms of a poll that did suppress its type |
| NoSyncRuns.RunStored | wci/workflow/scaling_algorithm/no_sync_match.go:211-336 | From an empty status, calling the entry points on the stored map with a JSON trip between calls is the run the theorems are about, and each call invokes exactly when its step does |
| RunLoop.ChainKeepsPollDeadline | wci/workflow/workflow.go:253-284 | Over any stretch of a history in which no poll sets a new deadline, however many runs it has, the deadline stays as it was until a run arms it, and is then max(old deadline, time of the latest arming) |
| RunLoop.AcceptedIsHandedOrQueued | wci/workflow/workflow.go:910-947 | In the reference bounded queue that a history defines, the signals present at the start and those accepted are exactly those handed over and those queued, in order, and the queue never exceeds 4000 |
| RunLoop.ReceivedIsAcceptedNilOrRefused | wci/workflow/workflow.go:910-934 | Every received signal was accepted, nil, or refused because 4000 were queued at that time |
| RunLoop.NothingStartsWhenDue | wci/workflow/workflow.go:355-386 | In every history that the runner produces, a hand-over takes the head of the queue, no handler or timer body starts once delete or continue-as-new is due in its run, and no poll runs before its deadline |
| RunLoop.FlagsMeanMoves | wci/workflow/workflow.go:309-334 | A run is due to end if and only if a delete, a state change or a suggestion to continue as new has come since it started, and is marked deleted if and only if a delete has |
| RunLoop.ReceiptOutcome | wci/workflow/workflow.go:910-934 | A receipt puts its signal at the end of the queue unless it is nil; with 4000 queued it is refused and the queue stays |
| RunLoop.LeavesLoopOnce | wci/workflow/workflow.go:327-334 | A run leaves its loop at one point, so whether it met a delete is a matter of that point |
| RunLoop.WorkflowRunner.Yield | wci/workflow/workflow.go:309-353 | Exactly the next move of the script enters the history and takes effect on channel, flags and clock |
| RunLoop.WorkflowRunner.QueueTaskAddSignal | wci/workflow/workflow.go:910-934 | A signal is appended unless it is nil or the queue already holds 4000 |
| RunLoop.WorkflowRunner.ReceiveSignal | wci/workflow/workflow.go:910-934 | The front of the channel is received: the history grows by that receipt alone, and the queue is what the reference queue makes of it |
| RunLoop.WorkflowRunner.DrainTaskAddSignalChannelToQueue | wci/workflow/workflow.go:949-961 | The drain receives exactly what is in the channel, in order and with nothing in between, each signal against the queue length it meets, and hands nothing over |
| RunLoop.WorkflowRunner.ProcessNextQueuedTaskAddSignal | wci/workflow/workflow.go:936-947 | The head of the queue is handed over, and then only the environment acts; the result says whether there was one |
| RunLoop.WorkflowRunner.HandleNoSyncMatchSignal | wci/workflow/workflow.go:699-739 | A handler starts only while neither delete nor continue-as-new is due; its start is recorded, and then only the environment acts |
| RunLoop.WorkflowRunner.ProcessTaskAddBatch | wci/workflow/workflow.go:373-386 | A batch hands over at most 100 signals and at least one if it can, refuses none, never ends with more than max(1, length at its start) queued, and does nothing once delete or continue-as-new is due; it stops only then, with nothing left, or after a hundred receipts and hand-overs |
| RunLoop.WorkflowRunner.SelectTimer | wci/workflow/workflow.go:355-371 | One timer body starts, only while nothing is due: the poll only if its timer had fired, and then it ends with setting the next deadline; otherwise the validation, if its timer had fired, and the deadline stays. Besides, only the environment acts |
| RunLoop.WorkflowRunner.AddStatsPullTimer | wci/workflow/workflow.go:253-274 | The deadline of the next poll is persisted as now plus the wait, a timer is armed for it, and both are recorded |
| RunLoop.WorkflowRunner.RunTimerSelectorLoop | wci/workflow/workflow.go:355-371 | Under every script the state stays what the history makes of it; the loop ends because the run is due to end, or with the script over, every signal that arrived received, nothing left in channel or queue and no fired timer; without a poll the deadline is kept |
| RunLoop.WorkflowRunner.ArmPollTimer | wci/workflow/workflow.go:253-284 | A run arms its first poll for the later of now and the persisted deadline, or five minutes from now without one |
| RunLoop.WorkflowRunner.Run | wci/workflow/workflow.go:309-353 | A run ends deleted if and only if a delete had come since it started by the point where it leaves its loop; it leaves the loop once, due to end or with the script over, and starts nothing after that. It first arms the poll, once, and receives what waits in the channel; it continues as new only with an empty channel, and fails only by a wait that the end of the script cancels |
| RunLoop.WorkflowRunner.EndRun | wci/workflow/workflow.go:331-353 | A run that leaves its loop deleted ends there; any other waits, drains the channel and continues as new, or fails by the cancelled wait, and hands nothing over and runs no timer |
| RunLoop.WorkflowRunner.RunChain | wci/workflow/workflow.go:309-353 | Over any chain of runs: it ends deleted if and only if some run left its loop after a delete; moves made ++ script left = whole script; arrivals of the moves = received ++ channel; start ++ accepted = handed over ++ queue, in order; the queue never exceeds 4000; without a poll the persisted deadline ends as max(old one, latest run's arming) |
| ActionDispatch.CallsExplainTheRun | wci/workflow/workflow.go:748-896 | Every deferred decision sees the status that the answers and updates before it left; provider calls go to groups in the spec of that time with non-negative sizes; the final state follows from the calls, with updates landing while an activity runs or while an error is being signalled |
| ActionDispatch.CallOutcome | wci/workflow/workflow.go:783-893 | What one call leaves behind: first an update's state if one landed meanwhile, then the answered status in the slot of its group and no other, or a provider's application error as the noted failure, and last the state of an update that landed during the signal |
| ActionDispatch.LatestAnswerStays | wci/workflow/workflow.go:783-822 | Without updates a group's status is the one its latest deferred decision answered with, and the earlier one without such an answer |
| ActionDispatch.LatestFailureStays | wci/workflow/workflow.go:824-893 | Without updates the noted failure is the message of the latest provider call that ended in an application error, and the earlier one without such a call |
| ActionDispatch.DeferralsMatchActions | wci/workflow/workflow.go:783-896 | Whatever activities answer and updates do meanwhile: exactly one deferred decision per well-formed deferred action whose group is in the spec when its turn comes, and the orders are the list's own with each answer's orders in the place of its action |
| ActionDispatch.OrdersAreGiven | wci/workflow/workflow.go:777-893 | Without the source request nothing is deferred, and providers get exactly the orders in the list, in order, against the spec of each action's time: unknown groups and negative sizes give none, a missing size means one |
| ActionDispatch.SpecsMetAreFixed | wci/workflow/workflow.go:761-772 | If no update comes in between, every action meets the same spec |
| ActionDispatch.ActionRunner.HandleActions | wci/workflow/workflow.go:756-896 | The recursive dispatch terminates for every script of replies and runs the actions in list order, rereading the spec for each |
| PullStats.FilteredActions | wci/workflow/activities.go:515-525 | The nested-deferral filter keeps exactly the other actions and marks them with their group |
| PullStats.FilteredInOrder | wci/workflow/activities.go:515-525 | Every action that is not deferred is kept exactly once, in order, with only its group key changed |
| PullStats.KeyedInPlace | wci/workflow/activities.go:660-663 | An inactive group's actions are all kept in place, with only their group key changed |
| PullStats.DropDeferred | wci/workflow/activities.go:699-707 | The filtering loop computes that list |
| PullStats.StatusByRule | wci/workflow/activities.go:638-697 | Group by group what is stored: the previous status when the algorithm cannot be asked, none when an inactive group's algorithm returns none, else the returned one |
| PullStats.LeastWaitIsUnique | wci/workflow/activities.go:640-712 | The wait that bounds all requests and five minutes is one value, so group order cannot change the next poll |
| PullStats.PullStats | wci/workflow/activities.go:638-717 | For every group order: each group's actions are there once and in order, its status is the algorithm's or the previous one, and the next poll is the least of all requests and 5 minutes, raised to 30 seconds |
| Routing.LookUp | wci/workflow/iface/spec.go:101-113 | For every iteration order, from the groups' regions and types alone: the result serves the type there if any group does, and is "" otherwise; a group that lists the region comes before one without regions, and with the same choice of region one that lists the type before a catch-all |
| Routing.FoundByPrecedence | wci/workflow/iface/spec.go:98-138 | The precedence holds of whatever any lookup may return, ambiguous specs included |
| Routing.ClaimsMeansServes | wci/workflow/iface/spec.go:115-138 | A group claims a type in a region if and only if it is not limited to other regions and lists the type or, listing none, the type is workflow, activity or nexus |
| Routing.TopClaimerIsUnique | wci/workflow/iface/spec.go:98-138 | On a spec that passes the uniqueness rules two highest-ranked claimers are the same group |
| Routing.LookUpIsRoute | wci/workflow/iface/spec.go:101-113 | On such a spec every iteration order gives the same group, and a served type never routes to "" |
| Routing.EffectiveTaskTypesForGroup | wci/workflow/iface/spec.go:140-162 | For any spec and group order the result holds every candidate that each lookup must route to the group and only ones that some lookup may; on a spec that passes the uniqueness rules it is exactly the routed candidates, in order |
| Routing.EffectiveTypesPartitionServed | wci/workflow/iface/spec.go:140-162 | In any region the groups' effective types are duplicate-free, pairwise disjoint and together the types served there |
| Routing.CheckGroups | wci/workflow/iface/spec.go:174-230 | The loop over the seen maps accepts only specs whose groups are pairwise free of conflicts, and an error names a real violation |
| Routing.CheckCatchAlls | wci/workflow/iface/spec.go:231-242 | Accepts only if every catch-all is the top claimer of some type in one of its regions |
| Routing.CheckRegions | wci/workflow/iface/spec.go:243-253 | Comparing lists with the first listed region accepts only if all listed regions serve the same types; an error names the least listed region and one that differs from it |
| Routing.Validate | wci/workflow/iface/spec.go:165-255 | For every iteration order the verdict is the same: no error if and only if an order-free predicate holds, and an error names a real violation |
| Routing.ExplainedIsInvalid | wci/workflow/iface/spec.go:165-255 | Each reported violation refutes the order-free predicate |
| Routing.FailoverKeepsService | wci/workflow/iface/spec.go:243-279 | On a valid spec, moving from any region to a listed one leaves no served type without a group |
| Routing.ListedRegionIds | wci/workflow/iface/spec.go:257-269 | Every listed region, once, sorted |
| SpecUpdate.MasksCompose | wci/workflow/iface/spec_update.go:17-75 | Applying one mask after another is applying their union, for results and for failure, so order and repetition of paths do not matter |
| SpecUpdate.MaskExtremes | wci/workflow/iface/spec_update.go:17-75 | A mask over all fields replaces the group; an empty one keeps it |
| SpecUpdate.MaskByStrings | wci/workflow/iface/spec_update.go:17-75 | By the path strings: a mask fails exactly for a path outside the nine, or for scaler.type or scaler.details without a scaler in the source; otherwise each of the fields has the source's value if some path in the mask names it or what holds it, and its old value if not |
| SpecUpdate.ApplyFieldMask | wci/workflow/iface/spec_update.go:17-75 | The loop fails exactly for a path that cannot be applied and else takes from the source exactly the fields that the mask's strings cover, presence of the scaler included; order and repetition do not matter, it writes only the group's own scaling object, and its error names the first offending path |
| SpecUpdate.Clone | wci/workflow/iface/spec.go:297-319 | A clone says the same and shares no scaling object |
| SpecUpdate.SortedKeys | wci/workflow/iface/spec_update.go:94-100 | The keys of a map, each once, sorted |
| SpecUpdate.Upsert | wci/workflow/iface/spec_update.go:101-124 | A new group is taken over whole, an existing one gets exactly the masked fields, every other group keeps what it said |
| SpecUpdate.PrefixFindsProviderPaths | wci/workflow/iface/spec_update.go:117-120 | Among supported paths the prefix test picks exactly provider, provider.type and provider.details |
| SpecUpdate.UnchangedKeepsProvider | wci/workflow/iface/spec_update.go:90-123 | Every group in the skip list survives with its provider type and config |
| SpecUpdate.UpdatedByStrings | wci/workflow/iface/spec_update.go:79-132 | By the request's strings: failure, which groups there are, what each field of each group holds, and which old groups are skipped in validation |
| SpecUpdate.BuildUpdatedSpec | wci/workflow/iface/spec_update.go:79-132 | The current spec and the request are not written; the result has the old and upserted groups that are not removed, new ones whole, upserted old ones with exactly the fields that the mask's strings cover; it fails exactly on a path that cannot be applied to an existing group, and then names the first bad path of the first such group in name order; the skip list is, sorted, exactly the surviving old groups without a provider path, empty for an empty request |
| SignalBatcher.TaskHook.BatchMatchSignals | wci/client/hook.go:136-180 | For any clock reading: one more event is counted; the batch is sent, whole, exactly if more than 500 ms (60 s without a no-sync match), or what is configured instead, have passed since the last stamp; other workflows are untouched, and seen = sent + pending is kept |
| SignalBatcher.DueByRule | wci/client/hook.go:139-180 | When a batch is due and what it carries, with the defaults spelled out |
| SignalBatcher.CallIsAccounted | wci/client/hook.go:139-180 | One call keeps seen = sent + pending for both kinds, and the spacing of the sends |
| SignalBatcher.StampsGrow | wci/client/hook.go:157-177 | Later sends carry stamps more than their interval after any earlier one, even when readings come out of order |
| SignalBatcher.SendRateBound | wci/client/hook.go:157-177 | Any window of T ns holds the stamps of at most T / gap + 1 sends to one workflow |
| SimulatorState.EachTaskInExactlyOnePlace | docs/simulators/workerset-ewma/app.js:340-374 | Conservation means that each issued id is in exactly one of backlog, busy slot or completed, and there once |
| SimulatorState.CompletionsAfterAssign | docs/simulators/workerset-ewma/app.js:340-362 | Assigning keeps exactly one live completion per busy slot and none per free slot |
| SimulatorState.CompletionsAfterFinish | docs/simulators/workerset-ewma/app.js:690-697 | A live completion always finds its slot busy with the id it names |
| SimulatorState.CompletionsAfterStop | docs/simulators/workerset-ewma/app.js:287-303 | Removing a consumer turns its completions stale without disturbing any other slot's |
| SimulatorState.InterruptedInOrder | docs/simulators/workerset-ewma/app.js:287-303 | The work of a stopped consumer is that of its busy slots, each once, in the order of the slots |
| SimulatorState.ReadiesAfterUnplan | docs/simulators/workerset-ewma/app.js:279-284 | Cancelling a starting consumer keeps ready events and starting consumers in bijection |
| Simulator.Engine.AssignTaskToSlot | docs/simulators/workerset-ewma/app.js:340-362 | One free slot becomes busy and the invariant takes the waiting id in |
| Simulator.Engine.DrainBacklog | docs/simulators/workerset-ewma/app.js:364-374 | Dispatch is first-in first-out into free slots only, busy slots stay as they are, and it stops only with an empty backlog or no free slot |
| Simulator.Engine.ActivatePendingConsumer | docs/simulators/workerset-ewma/app.js:237-252 | The consumer leaves the starting list and joins the active ones with all its slots, which then only fill from the front of the backlog |
| Simulator.Engine.StartConsumerAfterPlannedIncrease | docs/simulators/workerset-ewma/app.js:254-271 | One more consumer exists: at once without spin-up, else in the starting list with a ready event at the right time |
| Simulator.Engine.ApplyPlannedDecrease | docs/simulators/workerset-ewma/app.js:273-306 | The newest starting consumer goes, or else the newest active one, whose interrupted work goes in front of the backlog; nothing changes if there are no more consumers than planned |
| Simulator.Engine.UpdatePlannedConsumerCount | docs/simulators/workerset-ewma/app.js:308-338 | The planned count becomes the bounded target and active plus starting consumers follow it exactly |
| Simulator.BoundPlannedUpdate | docs/simulators/workerset-ewma/app.js:193-198 | A bounded update is the value itself unless a bound in the direction of the change is in the way, and then that bound |
| Simulator.Engine.MaybeScaleUpFromNoSync | docs/simulators/workerset-ewma/app.js:563-594 | One consumer more exactly if the maximum is not reached and the cooldown is over, with the time stamped |
| Simulator.Engine.Arrive | docs/simulators/workerset-ewma/app.js:665-685 | A sync match exactly if some slot is free, and then into the first free slot; otherwise a no-sync match that goes last in the backlog |
| Simulator.Engine.ProcessArrival | docs/simulators/workerset-ewma/app.js:663-688 | As many new ids and matches as the event says, at least one, with the invariant kept |
| Simulator.Engine.ProcessCompletion | docs/simulators/workerset-ewma/app.js:690-701 | A stale event changes nothing; a live one finds its consumer's slot busy with the id it names, completes exactly that id, and the slot takes the head of the backlog |
| Simulator.Engine.ProcessConsumerReady | docs/simulators/workerset-ewma/app.js:703-707 | The named starting consumer becomes active with all its slots, which fill from the front of the backlog, while every busy slot stays as it was |
| Simulator.Engine.ProcessCadence | docs/simulators/workerset-ewma/app.js:709-729 | Whatever the scaler's target, the planned count moves to its bounded value and the invariant holds; a rise stamps the scale-up time, no change leaves it; exactly one next cadence is in the queue, at least a second ahead |
| Simulator.Engine.ScheduleNextCadence | docs/simulators/workerset-ewma/app.js:161-164 | Afterwards exactly one cadence is scheduled, at least a second ahead |
| Simulator.Engine.ProcessEvent | docs/simulators/workerset-ewma/app.js:731-738 | Any event, taken in any order, keeps the invariant; completed work stays completed and ids are never reused; no event but a cadence touches the scheduled cadence, and a cadence schedules the next one |
| Simulator.Engine.constructor | docs/simulators/workerset-ewma/app.js:761-811 | A reset engine satisfies the invariant with the clamped initial count, all of it active |
| Simulator.Engine.Run | docs/simulators/workerset-ewma/app.js:731-738 | Over every run: conservation, no idle slot while there is backlog, one live completion per busy slot, consumers as planned; the next cadence stays scheduled, once |
| Simulator.Simulate | docs/simulators/workerset-ewma/app.js:767-811 | A fresh engine with its first arrival and cadence scheduled satisfies the invariant, and has exactly one cadence ahead, after any number of events |

## Left out

- IEEE effects: rounding, overflow, and NaN or infinite configuration values. Non-finite samples and stored floats of the rate-based scaler are modelled and rejected as the code rejects them; the no-sync scaler's rates are taken as finite.
- Unknown or ill-typed configuration keys, and configuration payloads in general: configurations are parsed records and payloads are opaque values.
- Integers above 2^53 that a JSON trip would round; strings in status slots count as "anything else".
- Compute providers, error classification, retries, metrics, logging, memos, queries, visibility and the SDK: activities are arbitrary answers.
- ActionDispatch.ActionRunner.HandleActions: does not model the task types that a deferred action carries, which only travel to the activity; an update that lands while an activity is pending is an arbitrary new state.
- The conflict token of updates, and the order of an update and a delete: no claim that no update takes effect after a delete.
- RunLoop.WorkflowRunner.Run: a delete that lands while the run waits for its handlers before continuing as new is not checked again by the code, and is not claimed to stop it.
- The legacy loop without a queue limit or without the timer selector, and the signals kept from workflow versions before the limit.
- The composition of gap-free suppression with the polling activity: its 30-second floor can exceed a short suppress interval, so the guarantee is stated for the interval the algorithm asks for.
- RateBased.InactiveGroupActions: not part of the claims about bounds, cooldowns and replay, because it drops count and timestamps by design.
- Task types other than the four of the enumeration that the spec code names.
- SignalBatcher.TaskHook.BatchMatchSignals: the batches are values in the map, so sharing of a batch object between callers is not modelled; the mutex makes each call atomic. Stamps are unbounded integers.
- Simulator.Engine.ProcessCadence: does not model the simulator's own rate smoothing, capacity sampling, scale decision and its other timestamps, because any target is allowed; Sizing.SimulatorDesired covers its sizing.
- Simulator.Engine.Run: does not model the order of event times or the per-frame event cap, because events may be taken in any order; charts, history and wait statistics are not modelled. Slots are values inside the consumer list.
- The other four simulators.
