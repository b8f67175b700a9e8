# Frame hand-off, controller mappings, host list and Base64

This project models four parts of a remote-play client and proves what they promise.

**Frame hand-off** (`gui/src/qmlmainwindow.cpp`). Decoded frames go straight into libplacebo's queue, or
into a pending store made of a primary slot and a small overflow deque, from where they are promoted,
taken, pruned, put back, or dropped and counted. Two threads take part. Each mutex-protected section is one
atomic step, and the sections of the presenting thread and the render thread interleave freely. Resets can
come at any point; seeds, kept frames and replays are taken as the render thread's, between its renders, and
the end of a session comes between two arrivals.

- `FrameSpec` gives the meaning of the pending store as one sequence of frames. `MediaClock` is the origin
  and start instant that decide which time stamp is due. `HandoffSpec` says what each locked section does to
  the shared state, `HandoffMeaning` the same in terms of the fields alone, `HandoffLaws` what every section
  keeps, and the class in `Handoff` does it on fields, in place.
- `PipelineMachine` interleaves the sections. `PipelineSafety` has bounds and conservation over every run,
  `PipelineClock` the media clock and `PipelineHistory` the past over every run, `PipelineOrder` the ordering
  invariant, `PipelineSchedule` the condition on a schedule under which frames stay in order,
  `PipelineScenarios` runs in which they do not, and `PipelineTheorems` the main results on delivery.
- `Pacing` has the throttle, the two ways to skip missed intervals, and the integer moving averages.
  `PacerThread` and `SwapMailbox` are the two small thread protocols.

**Controller mappings** (`gui/src/qmlbackend.cpp`). `MappingSpec` has the two maps and what an edit means,
`MappingText` the text format, `ControllerMapping` the editor object with its loops.

**Host list** (`gui/src/qmlbackend.cpp`). `HostList` has the list that is shown and the look-up by position.

**Base64** (`lib/src/base64.c`). `Base64Spec` follows sections 3.5 and 4 of RFC 4648; `Base64` has the encoder
and the decoder on buffers.

## What the proofs show about the code

Some promises hold only under a condition; the condition is proved exact, or a run that fails is given.

- *Order of queued frames.* A frame is promoted in two sections: it leaves the pending store in one and is
  pushed in another (`gui/src/qmlmainwindow.cpp:3181-3190` and `3282-3292`). Only an idle render pipeline lets it
  start (line 3179), but a render can start in the gap: `updateSwapchain` queues one without marking it as
  scheduled (line 6095), and the second `finalize_render` of a render (line 7425) clears the mark of a render
  that was scheduled since the first one (line 6763). That render can take a newer frame out of the store and
  queue it first. `OrderNeedsNoOverflow`: the order holds in every run, whatever the schedule, if and only if the
  overflow deque is switched off, which it is not by default (lines 4648-4659). `QueueOrder`: a single run keeps the
  order if and only if its schedule has no step that queues a frame taken during an open promotion before that
  promotion is pushed.
- *Queue depth.* The same gap lets the queue exceed its limit, by one frame and never more
  (`BoundsInEveryRun`); `LimitIsExceededExactlyAt` says at which step. As far as the presenting thread sees the
  render pipeline idle only between two renders, which `render_active` ensures (line 3144), the queue stays within
  its limit in every run if and only if the overflow deque is switched off (`LimitNeedsNoOverflow`).
- *Ownership.* A warm-up frame that the render thread queues is also stored again (lines 4316-4332). A frame handed
  in once has exactly one owner if and only if that has not happened to it (`FrameInOnePlace`), it happens at one
  kind of step only (`CopiesGrowExactlyAt`), never to a real frame (`RealFrameInOnePlace`), and in every
  configuration there is a run with a single warm-up frame in which it does: the frame finds the queue filled by
  frames of an earlier stream that arrived late (`WarmupEndsUpTwice`).
- *Preserved time line.* A roll-back moves the due time stamp by less than a microsecond if and only if the new
  start instant is not clamped at zero (`PreservedRollback`).
- *Clock readings.* The start instant is never later than the last clock reading (`StartNeverInFuture`). But a
  render takes its reading (line 6607) before it subtracts the start instant (lines 6636-6638), and no lock keeps
  the presenting thread from starting the clock in between (lines 3398-3406). `ReadingWrapsExactlyWhen`: the unsigned
  difference wraps around if and only if a step in between put the start instant behind the reading and it stayed
  there; which steps can is exact as well (`StartsAfterExactly`). `ReadingCanWrap` is a run in which it happens.
- *Swap mailbox.* Clearing the in-flight flag from outside is harmless, whatever follows, if and only if nothing waits,
  the thread has no clearing of its own ahead and the render thread is not about to hand a task over, or the thread
  is being stopped (`ForgettingIsHarmless`).
- *Mapping edits.* An edit keeps the two maps exact inverses if and only if the button is known or the input
  was unbound (`EditKeepsExact`); a parsed mapping is exact if and only if no input occurs twice and no key
  is empty (`ParsedIsExact`).
- *Applying a mapping.* The editor takes a saved mapping back when its text is the controller's first text again.
  The printed text has no guid in front, so the two are equal if and only if the first text consists of the type and
  the fields of the mapping (`OriginalIsPrintedExactlyWhen`). As every field has a colon, this branch is out of reach
  for all first texts whose type has none (`OriginalIsNeverPrinted`); `OriginalCanBePrinted` is a text for which it
  is not.
- *Hidden hosts.* Listing a discovered host that is both hidden and registered takes it out of the hidden hosts, looks
  its entry up afterwards, and so leaves a hidden host without an address behind (`NullHostAppears`, exactly when).
- *Host look-up.* Position and entry agree if and only if no listed PSN host stands behind one that is left out
  of the list only because it is waking up or is the surplus PS4 entry (`LookupMatchesList`);
  `SurplusPs4ShiftsLookup` is a case where they differ although nothing is waking up.
- *Base64.* Decoding and encoding a text gives the text back if and only if it is canonical
  (`EncodeDecode`).

The order theorem speaks about runs without resets and replays, in which warm-up frames arrive before the first
real frame and real frames carry time stamps that increase by more than the tolerance. Warm-up frames come in on
the direct path only. All bounds assume time stamps that are not negative, and zero for warm-up frames.
Conservation assumes nothing.

## Model

| member | source | states |
|---|---|---|
| FrameSpec.PruneIsFilter | gui/src/qmlmainwindow.cpp:3896-3949 | On every store that is sorted and holds a warm-up frame only alone, cutting obsolete frames off the slot and the head of the deque leaves exactly what a filter over all held frames would leave, in order |
| FrameSpec.PruneKeepsGood | gui/src/qmlmainwindow.cpp:3896-3949 | Pruning keeps the store sorted, and a frame stays if and only if it is not obsolete |
| FrameSpec.PruneCounts | gui/src/qmlmainwindow.cpp:3901-3937 | Every held frame is either still held or removed, exactly once; the numbers add up |
| FrameSpec.KeptMembers | gui/src/qmlmainwindow.cpp:3896-3949 | The filter keeps a frame if and only if it is held and not obsolete |
| FrameSpec.StoreConserves | gui/src/qmlmainwindow.cpp:3607-3731 | Whatever is held, whichever result: old and new frames are each still held, dropped and counted, or freed silently, exactly once |
| FrameSpec.StoreOnGood | gui/src/qmlmainwindow.cpp:3630-3722 | Storing keeps the store sorted and within its bound; a frame is refused exactly if it is not newer than the newest held frame and does not replace a warm-up; an accepted frame is the newest; at most one frame is dropped; only a warm-up that waits alone is freed silently |
| FrameSpec.InsertNewest | gui/src/qmlmainwindow.cpp:3985-3991 | The sorted insert of a frame newer than the whole deque is an append |
| FrameSpec.CutUpToGood | gui/src/qmlmainwindow.cpp:3349-3386 | Dropping from the front up to a time stamp leaves exactly the newer frames |
| FrameSpec.NewestIsNewest | gui/src/qmlmainwindow.cpp:3951-3983 | The frame that is cloned is the last one held, and every other one is older by more than the tolerance |
| HandoffMeaning.StoreMeaning | gui/src/qmlmainwindow.cpp:3630-3722 | The whole outcome of a store: a warm-up frame that a real one takes the place of is freed uncounted, and nothing else is; a frame that is not newer is dropped itself; a full store drops its second frame, or its only one without an overflow deque; the rest keeps its order and the frame comes last |
| HandoffMeaning.StoreCounts | gui/src/qmlmainwindow.cpp:3607-3731 | On every store: when a frame is accepted, and what the counter gains |
| HandoffMeaning.StampMeaning | gui/src/qmlmainwindow.cpp:3607-3628 | A stored frame keeps its data and remembers the instant and the origin, exactly under the lock and to half a microsecond without it |
| HandoffMeaning.PruneMeaning | gui/src/qmlmainwindow.cpp:3896-3949 | Which frames pruning leaves, in plain numbers; each removed frame is counted, none is freed silently, and nothing else changes |
| HandoffMeaning.DropStaleMeaning | gui/src/qmlmainwindow.cpp:3349-3386 | Which frames the clean-up behind a queued frame leaves, and that each removed one is counted |
| HandoffMeaning.DecideMeaning | gui/src/qmlmainwindow.cpp:3168-3222 | A pending frame is promoted exactly if the pipeline is idle and the queue has room; an arrival is queued exactly if there is room and nothing is pending or being submitted; it waits exactly for one of three reasons, and then nothing changes |
| HandoffMeaning.AdoptOriginMeaning | gui/src/qmlmainwindow.cpp:3103-3120 | A roll-back in presentFrame happens exactly without an origin or before it; it empties the queue, forgets the newest time stamp so that nothing is refused, stops the clock and prunes; otherwise nothing changes |
| HandoffMeaning.SubmitMeaning | gui/src/qmlmainwindow.cpp:4224-4291 | When a submitted frame is stale, deferred or queued, and the queue, clock, counter and newest time stamp for each |
| HandoffMeaning.EndSessionMeaning | gui/src/qmlmainwindow.cpp:5089-5137 | The end of a session empties queue and store without counting, and unsets clock and newest time stamp |
| MediaClock.CachedOriginClose | gui/src/qmlmainwindow.cpp:3519-3533 | The lock-free copy of the origin is unset exactly if the origin is, and at most half a microsecond off |
| MediaClock.PreservedRollback | gui/src/qmlmainwindow.cpp:4237-4264 | A roll-back that preserves the time line moves the due time stamp by less than a microsecond if and only if the start instant is not clamped; the catch-up of the same call never disturbs it |
| MediaClock.RollbackDrift | gui/src/qmlmainwindow.cpp:4247-4256 | The exact distance a roll-back moves the due time stamp, clamped or not |
| PipelineClock.StartNeverInFuture | gui/src/qmlmainwindow.cpp:4237-4355 | In every run with a monotonic clock, resets, replays and roll-backs at any point included, the start instant is not later than the last reading |
| PipelineClock.StartsAfterExactly | gui/src/qmlmainwindow.cpp:3398-3406 | A step puts the start instant behind a reading exactly if it starts the clock, or makes it jump, for a frame due after that reading |
| PipelineClock.ReadingWrapsExactlyWhen | gui/src/qmlmainwindow.cpp:6607-6638 | A reading used later wraps around if and only if such a step came in between and the start instant stayed behind the reading; the value it then gives |
| PipelineScenarios.ReadingCanWrap | gui/src/qmlmainwindow.cpp:6607-6638 | A run from the start in which the difference to a reading five microseconds too old is five below 2 to the 64th |
| HandoffLaws.ResetThenSubmit | gui/src/qmlmainwindow.cpp:3423-3479 | Across two sections: after a reset that preserves the time line, submitting an older frame moves the due time stamp by less than a microsecond if and only if the start instant is not clamped, and uses the permission up |
| MediaClock.SubmittedNotFarAhead | gui/src/qmlmainwindow.cpp:4341-4355 | After a submission the frame is at most the threshold ahead of the clock, unless the start instant is zero |
| MediaClock.CatchUpMeaning | gui/src/qmlmainwindow.cpp:4341-4355 | In plain numbers: the clock is started for the frame if it stands, jumps exactly if the frame is more than two of its durations and more than 50 ms ahead, and is left alone otherwise |
| MediaClock.RollbackMeaning | gui/src/qmlmainwindow.cpp:4237-4264 | Origin, permission and state of the clock after a roll-back; it keeps running exactly if the time line is kept |
| MediaClock.StartMakesDue | gui/src/qmlmainwindow.cpp:4341-4355 | A started clock makes its frame due now to the microsecond, and starts at zero only for a frame further past the origin than the clock has run |
| PipelineClock.SubmissionClock | gui/src/qmlmainwindow.cpp:4224-4355 | Roll-back, push and catch-up of an uninterrupted submission move the clock as one step |
| PipelineClock.ArrivalClock | gui/src/qmlmainwindow.cpp:3398-3406 | An arrival queued directly starts a clock that stands for its position and leaves a running one alone |
| Handoff.FrameHandoff.constructor | gui/include/qmlmainwindow.h:293-376 | The object starts empty, with its fields in agreement with the abstract state |
| Handoff.FrameHandoff.PromotePendingFrameFromOverflowLocked | gui/src/qmlmainwindow.cpp:3994-4019 | Slot and deque read as the same sequence before and after; an empty slot means an empty deque afterwards |
| Handoff.FrameHandoff.TakePendingFrameLocked | gui/src/qmlmainwindow.cpp:4021-4047 | Returns the oldest held frame and leaves the others in order with an exact presence flag |
| Handoff.FrameHandoff.DropPendingFrameLocked | gui/src/qmlmainwindow.cpp:4049-4064 | Frees the primary frame and leaves exactly the deque |
| Handoff.FrameHandoff.ClearPendingFrameStateLocked | gui/src/qmlmainwindow.cpp:3874-3894 | Frees everything held without counting it and ends the submission |
| Handoff.FrameHandoff.PrunePendingFramesBeforeLocked | gui/src/qmlmainwindow.cpp:3896-3949 | The two removal runs are the prune of the abstract store, and the counter gains one for each removed frame |
| Handoff.FrameHandoff.CloneNewestPendingFrameLocked | gui/src/qmlmainwindow.cpp:3951-3983 | Picks the newest held frame |
| Handoff.FrameHandoff.InsertPendingOverflowLocked | gui/src/qmlmainwindow.cpp:3985-3991 | Inserts behind every entry that is not newer, in place |
| Handoff.FrameHandoff.StorePendingFrame | gui/src/qmlmainwindow.cpp:3607-3731 | Slot, deque, presence flag and result are those of the abstract store, for both outcomes of the lock attempt; the counter's gain in terms of the old slot, the old deque and the frame, a replaced warm-up frame not counted |
| Handoff.FrameHandoff.PresentAdoptOrigin | gui/src/qmlmainwindow.cpp:3103-3120 | Rolls back exactly without an origin or before it: empty queue, nothing refused as stale, clock stopped at zero with the frame as origin; otherwise nothing changes |
| Handoff.FrameHandoff.PresentSubmit | gui/src/qmlmainwindow.cpp:3168-3222 | In terms of the fields: exactly when a pending frame is promoted, when the arrival is queued, and for which three reasons it waits |
| Handoff.FrameHandoff.PresentPushPromoted | gui/src/qmlmainwindow.cpp:3262-3308 | The promoted frame gets its one new owner, the store keeps its shape, and from now on every real frame that is not newer is refused as stale, besides all that were refused before |
| Handoff.FrameHandoff.PresentDropStale | gui/src/qmlmainwindow.cpp:3349-3386 | The drop loop removes exactly the run of frames not newer than the queued one and counts each |
| Handoff.FrameHandoff.PresentStartClock | gui/src/qmlmainwindow.cpp:3398-3406 | A running clock is never disturbed; a clock that stands is started so that the queued frame is due now to the microsecond, unless the start instant is clamped at zero |
| Handoff.FrameHandoff.ApplyClaim | gui/src/qmlmainwindow.cpp:4421-4492 | Claims the oldest held frame for submission, or withdraws the submission flag |
| Handoff.FrameHandoff.QueueStoredFrameLocked | gui/src/qmlmainwindow.cpp:4224-4291 | In terms of the fields: exactly when a frame is stale, deferred or queued, the queue and the counter for each |
| Handoff.FrameHandoff.QueueStoredFrameOrigin | gui/src/qmlmainwindow.cpp:4237-4264 | The roll-back inside a submission, with or without a preserved time line |
| Handoff.FrameHandoff.QueueStoredFrameClock | gui/src/qmlmainwindow.cpp:4341-4355 | For every state, with the unsigned subtraction: the clock runs afterwards; it is started or jumps for the frame in exactly the cases that count as far ahead, and is left alone otherwise |
| Handoff.FrameHandoff.ReplayKeptFrame | gui/src/qmlmainwindow.cpp:4150-4199 | A clock that runs with an origin is not disturbed, a clock that stands shows its origin now, the frame's own time stamp becomes the origin if there was none; frames not newer are refused; nothing else gains or loses a frame |
| Handoff.FrameHandoff.ResetPlaceboQueueLocked | gui/src/qmlmainwindow.cpp:3423-3479 | Afterwards no frame is refused as stale; a kept clock shows the same time stamp as before at every instant, otherwise every next frame sets a new origin; no frame is lost |
| Handoff.FrameHandoff.SessionChanged | gui/src/qmlmainwindow.cpp:5089-5137 | Empties queue and store and unsets the clock |
| PipelineSafety.BoundsInEveryRun | gui/src/qmlmainwindow.cpp:4631-4659 | In every run: the queue is at most one frame over its limit, and only after a promotion was crowded; at most two frames behind the primary one; sorted; a warm-up frame waits only alone; exact presence flag; exact drop counter |
| PipelineSafety.LimitIsExceededExactlyAt | gui/src/qmlmainwindow.cpp:3262-3308 | A queue within its limit leaves it exactly at the push of a promoted frame into a queue that has filled up |
| PipelineSafety.OverflowInEveryRun | gui/src/qmlmainwindow.cpp:3649-3722 | Two held frames are never warm-up frames, are sorted, fit the overflow limit, and exist only with overflow enabled |
| PipelineSafety.Conservation | gui/src/qmlmainwindow.cpp:3607-3731 | In every run every frame handed in is in as many places as it was handed in: queue, store, dropped, freed silently, gone from the queue, or in one thread's hands; warm-up frames stored again count as copies |
| PipelineSafety.RealFramesAreNeverCopied | gui/src/qmlmainwindow.cpp:4316-4332 | Only warm-up frames get a second life; a real frame stays real wherever it is |
| PipelineSafety.CopiesGrowExactlyAt | gui/src/qmlmainwindow.cpp:4316-4332 | A frame gets a second owner exactly at the step in which the render thread queues a warm-up frame |
| PipelineSafety.FrameInOnePlace | gui/src/qmlmainwindow.cpp:3607-3731 | In every run a frame handed in once is in exactly one place if and only if it never got a second owner |
| PipelineSafety.RealFrameInOnePlace | gui/src/qmlmainwindow.cpp:3607-3731 | A real frame handed in once is in exactly one place in every reachable state |
| PipelineHistory.QueueIsFifo | gui/src/qmlmainwindow.cpp:3168-3308 | In every run frames leave the queue in the order of their pushes, none skipped |
| PipelineHistory.FreedExactly | gui/src/qmlmainwindow.cpp:3657-3665 | Frames are freed uncounted exactly when a real frame takes the place of a waiting warm-up frame and when the session ends |
| PipelineHistory.NewestIsLargest | gui/src/qmlmainwindow.cpp:3103-3120 | In every run, roll-backs and resets included, the newest queued time stamp is the largest that counts among the frames pushed since the queue was last emptied, or -1 |
| PipelineHistory.WaitsForAReason | gui/src/qmlmainwindow.cpp:3168-3222 | In every run an arrival waits, is queued or opens a promotion exactly in the cases the fields give |
| PipelineHistory.SubmittingMeansBusy | gui/src/qmlmainwindow.cpp:4421-4492 | The flag of a submission in flight is only set while the render thread is at work |
| PipelineHistory.CleanUpLeavesNewer | gui/src/qmlmainwindow.cpp:3349-3386 | Behind a frame that went straight to the queue only newer frames stay pending, the others are counted |
| PipelineOrder.StoreOrder | gui/src/qmlmainwindow.cpp:3630-3722 | Storing keeps newest queued before primary before each overflow entry |
| PipelineOrder.SubmitOriginOrder | gui/src/qmlmainwindow.cpp:4237-4264 | In orderly runs a submission rolls back only before any real frame is queued, and keeps the ordering |
| PipelineOrder.PushPromotionOrder | gui/src/qmlmainwindow.cpp:3262-3308 | Pushing a promoted frame keeps the invariant, and breaks the order exactly if it was overtaken |
| PipelineOrder.PresentOrder | gui/src/qmlmainwindow.cpp:3022-3414 | Every step of the presenting thread keeps the ordering invariant, or an overtaken frame was just pushed |
| PipelineOrder.RenderOrder | gui/src/qmlmainwindow.cpp:4201-4492 | Every step of the render thread keeps the ordering invariant |
| PipelineSchedule.QueueOrder | gui/src/qmlmainwindow.cpp:3171-3321 | Over every interleaving the real frames are queued in order if and only if the schedule has no frame taken and queued by the render thread while an earlier one is open for promotion |
| PipelineSchedule.IdleGuardKeepsOrder | gui/src/qmlmainwindow.cpp:3171-3190 | If the render thread takes no real frame while a promotion is open, the order holds |
| PipelineSchedule.CalmRun | gui/src/qmlmainwindow.cpp:4648-4659 | Without an overflow deque the ordering invariant holds in every run: while a promotion is open nothing real is pending |
| PipelineTheorems.OrderNeedsNoOverflow | gui/src/qmlmainwindow.cpp:4648-4659 | For every valid configuration: all runs queue the frames in order if and only if the overflow deque is switched off, also among runs that see the pipeline idle only between two renders |
| PipelineTheorems.LimitNeedsNoOverflow | gui/src/qmlmainwindow.cpp:3144-3179 | For every valid configuration: all runs that see the pipeline idle only between two renders keep the queue within its limit if and only if the overflow deque is switched off |
| PipelineSchedule.SnugRun | gui/src/qmlmainwindow.cpp:3171-3190 | Without an overflow deque, from the moment the pipeline is seen idle at most one frame is pending or in the render thread's hands, and an open promotion has taken it |
| PipelineTheorems.InOrderDelivery | gui/src/qmlmainwindow.cpp:3171-3321 | Without overflow deque, and for every schedule without overtaking, the queued time stamps are a strictly increasing subsequence of the arrived ones |
| PipelineTheorems.IncreasingIsOrdered | gui/src/qmlmainwindow.cpp:4226-4236 | Being in order says no more than that the time stamps of the real frames increase by more than the tolerance |
| PipelineScenarios.BusyRenderBreaksOrder | gui/src/qmlmainwindow.cpp:3181-3292 | From every state with an open promotion, a newer pending frame and room in the queue, a render in between breaks the order and adds two frames to the queue |
| PipelineScenarios.OvertakingIsReachable | gui/src/qmlmainwindow.cpp:3181-3292 | For every valid configuration with an overflow deque a run from the start, with increasing arrivals and the pipeline seen idle only between two renders, breaks the order and ends one frame over the queue's limit |
| PipelineScenarios.WarmupEndsUpTwice | gui/src/qmlmainwindow.cpp:4316-4332 | For every valid configuration a run from the start with a single warm-up frame ends with queue and store both owning it |
| Pacing.AdvanceByLoop | gui/src/qmlmainwindow.cpp:5505-5506 | The loop finds the least grid point strictly after now |
| Pacing.AdvanceByDivision | gui/src/qmlmainwindow.cpp:5440-5443 | The closed form finds the least grid point strictly after now |
| Pacing.AdvanceEitherWay | gui/src/qmlmainwindow.cpp:5440-5443 | Both agree on all targets, clocks and positive intervals |
| Pacing.Throttle.ThrottleFramePresentation | gui/src/qmlmainwindow.cpp:5478-5549 | What one throttled present leaves behind: target on the grid; every request to sleep ends by the target less the lead, and there is none if the lead covers the distance; the return is not before that instant and later by no more than the clock overshoots; everything reset when interrupted |
| Pacing.PacingRate | gui/src/qmlmainwindow.cpp:5495-5542 | Over any uninterrupted run the n-th return is later than the first entry plus n - 1 intervals less the lead and no later than due plus the overshoot; the next target is at most interval plus lead ahead and on one grid |
| Pacing.PromptPacing | gui/src/qmlmainwindow.cpp:5495-5542 | With prompt calls no interval is missed: the n-th target is n - 1 intervals after the first, and the n-th return lies between the lead before it and that plus the overshoot |
| Pacing.IntervalIsRounded | gui/src/qmlmainwindow.cpp:5495 | The interval in microseconds is the nearest whole number |
| Pacing.Throttle.PresentRun | gui/src/qmlmainwindow.cpp:5478-5549 | Calling the throttle again and again with one interval gives such a run; its returns keep the pace from both sides |
| Pacing.AverageStaysBetween | gui/src/qmlmainwindow.cpp:5711-5716 | The moving average stays between the smallest and largest of its start and samples, over any samples |
| Pacing.SmoothIsAverage | gui/src/qmlmainwindow.cpp:5711-5716 | The average is seven eighths of the old value and one of the sample, rounded down; an unset estimate takes the sample |
| Pacing.EstimateStaysBetween | gui/src/qmlmainwindow.cpp:6773-6778 | An estimate that starts unset stays between its samples |
| Pacing.SmoothStep | gui/src/qmlmainwindow.cpp:6847-6853 | Under a constant sample the average stands still exactly within seven below it; elsewhere it gets closer; it never crosses the sample |
| Pacing.Settles | gui/src/qmlmainwindow.cpp:6897-6903 | Each step brings the average nearer by at least one until it has settled |
| Pacing.SettlesForGood | gui/src/qmlmainwindow.cpp:6897-6903 | After finitely many steps it is within seven below the sample, exactly at it when it came from above, and stays |
| PacerThread.Pacer.ArmAt | gui/src/qmlmainwindow.cpp:298-308 | Keeps the protocol's invariant; unless stopping, the target is afterwards the minimum of all targets armed, this one included, a sleeping thread is told, and a wait begun before looks at the state again |
| PacerThread.Pacer.RunFromHead | gui/src/qmlmainwindow.cpp:328-356 | Keeps the invariant; fires once, exactly if the earliest target armed has passed, and otherwise waits for just that target |
| PacerThread.Pacer.Resume | gui/src/qmlmainwindow.cpp:336-363 | Keeps the invariant; after a notification, a spurious wake-up or a time-out alike, fires once exactly if the earliest target armed has passed |
| PacerThread.TargetIsEarliest | gui/src/qmlmainwindow.cpp:298-308 | While armed, the target is the minimum of all targets armed since the last fire or disarm |
| PacerThread.FiresOnceAndNotEarly | gui/src/qmlmainwindow.cpp:326-363 | Over every interleaving no fire comes before the earliest target of its period, and no period fires twice |
| PacerThread.DueTargetFires | gui/src/qmlmainwindow.cpp:390-461 | No wake-up is lost: a due target makes the next step of the thread a fire, and the thread has a reason to wake up |
| SwapMailbox.DeferredSwap.Post | gui/src/qmlmainwindow.cpp:502-512 | Keeps the flow invariant; an accepted task comes last on the way through the mailbox and takes the place of one that still waited; a refused one changes nothing on the way |
| SwapMailbox.DeferredSwap.RunSection | gui/src/qmlmainwindow.cpp:541-595 | Keeps the flow invariant; no section loses a task or changes the order of tasks on their way |
| SwapMailbox.FlagMeaning | gui/src/qmlmainwindow.cpp:5605-5609 | Handing over keeps the in-flight flag unless the task is refused; the thread clears it only when no other task waits |
| SwapMailbox.ProcessedInOrder | gui/src/qmlmainwindow.cpp:502-595 | Processed tasks are an in-order subsequence of accepted tasks |
| SwapMailbox.IdleMeansCaughtUp | gui/src/qmlmainwindow.cpp:520-531 | When idle or drained the last accepted task has been processed, and all of them exactly if none was overwritten |
| SwapMailbox.GuardedLosesNothing | gui/src/qmlmainwindow.cpp:6905-6931 | With the in-flight flag as guard, cleared from outside only when that is harmless, nothing is overwritten, and idle means processed equals accepted |
| SwapMailbox.NeverForgetting | gui/src/qmlmainwindow.cpp:6905-6931 | Never clearing it from outside is a case of that |
| SwapMailbox.ForgettingIsHarmless | gui/src/qmlmainwindow.cpp:5605-5609 | Clearing the flag from outside loses no task in any continuation if and only if the mailbox is settled or being stopped |
| MappingSpec.UnboundMeaning | gui/src/qmlbackend.cpp:2109-2119 | Taking an input from its old key removes that binding and no other, and leaves no empty list |
| MappingSpec.EditMeaning | gui/src/qmlbackend.cpp:2105-2131 | After an edit exactly one input has moved to the chosen key, at most the replaced one is unbound, every other binding is as before |
| MappingSpec.EditPlaces | gui/src/qmlbackend.cpp:2120-2131 | The input comes first or last in its new list, as chosen; the others keep their order without the replaced one |
| MappingSpec.RemoveOneInOrder | gui/src/qmlbackend.cpp:2111-2116 | Taking an input from its old key leaves the others in order |
| MappingSpec.EditAgain | gui/src/qmlbackend.cpp:2107-2108 | Binding an input to the key it has changes nothing |
| MappingSpec.ButtonBits | gui/src/qmlbackend.cpp:2072-2096 | The SDL key of every console button, by its bit |
| MappingSpec.ExtendedBits | gui/src/qmlbackend.cpp:2097-2103 | The SDL keys of the sticks and the extra button, by their bits |
| MappingSpec.MetaKeys | gui/src/qmlbackend.cpp:2201 | Which keys bind no input |
| MappingSpec.EditKeepsExact | gui/src/qmlbackend.cpp:2105-2131 | The maps stay exact inverses with non-empty, repeat-free lists if and only if the button is known or the input was unbound |
| MappingSpec.PressesKeepExact | gui/src/qmlbackend.cpp:2105-2131 | The same over any sequence of edits with known buttons |
| MappingSpec.AlteredMeansDifferent | gui/src/qmlbackend.cpp:2132-2135 | Over any sequence of edits the altered flag says whether the mapping differs from the applied one |
| MappingText.ParsedIsExact | gui/src/qmlbackend.cpp:2187-2206 | A parsed mapping is exact if and only if no input occurs twice and no key is empty |
| MappingText.RoundTrip | gui/src/qmlbackend.cpp:2276-2285 | Printing, prefixing the guid and splitting again gives guid and type, and gives the mapping if and only if no list is empty, for every order of the keys |
| MappingText.SavedMappingSurvives | gui/src/qmlbackend.cpp:2036-2037 | From any text without repeated inputs, through any edits, to the saved text and back: same guid, type, mapping and owners |
| MappingText.SplitLast | gui/src/qmlbackend.cpp:2164-2192 | Splitting undoes appending a separator and a piece without one |
| MappingText.PrintedTextIsUnique | gui/src/qmlbackend.cpp:2276-2285 | Keys in ascending order make the printed text of a mapping unique |
| MappingText.OriginalIsPrintedExactlyWhen | gui/src/qmlbackend.cpp:2287-2306 | The printed text is the first text if and only if the first text's pieces are the type's and the mapping's fields |
| MappingText.OriginalIsNeverPrinted | gui/src/qmlbackend.cpp:2287-2306 | It never is for a first text a session can begin with whose type has no colon |
| MappingText.OriginalCanBePrinted | gui/src/qmlbackend.cpp:2287-2306 | A text with a colon in its type that one edit prints again |
| ControllerMapping.MappingEditor.UpdateButton | gui/src/qmlbackend.cpp:2070-2138 | The in-place edit of both maps and the altered flag is the abstract edit |
| ControllerMapping.MappingEditor.Begin | gui/src/qmlbackend.cpp:2140-2214 | Refuses, quits or starts a session, with controller, device id, guid, type and both maps read from the text; the first text of a guid is remembered and never overwritten |
| ControllerMapping.MappingEditor.AbsorbPieces | gui/src/qmlbackend.cpp:2187-2206 | The parsing loop gives the maps the pieces describe |
| ControllerMapping.MappingEditor.Quit | gui/src/qmlbackend.cpp:2247-2268 | Nothing is left of the session |
| ControllerMapping.MappingEditor.Apply | gui/src/qmlbackend.cpp:2274-2319 | Prints every key once with its whole list, in ascending order; saves the text and queues the guid, or takes the saved mapping back if the text is the first one |
| HostList.Hosts | gui/src/qmlbackend.cpp:735-844 | The loops list discovered hosts, all manual hosts and the PSN hosts that are not left out, in this order, with all their fields, and leave the hidden hosts updated |
| HostList.FoundRowMeaning | gui/src/qmlbackend.cpp:741-800 | From the world's data: a discovered host is displayed if and only if it is not hidden or an earlier entry of it took it out; its other fields, manual flag and duid |
| HostList.ManualRowMeaning | gui/src/qmlbackend.cpp:801-815 | A manual host is displayed if and only if it is not registered or no discovered host has its address and MAC address; its other fields |
| HostList.PsnRowMeaning | gui/src/qmlbackend.cpp:816-842 | Which PSN hosts are listed, with which fields, all displayed |
| HostList.ListedInOrder | gui/src/qmlbackend.cpp:818-842 | Listed PSN hosts keep the order of their duids |
| HostList.CountedInOrder | gui/src/qmlbackend.cpp:1787-1812 | So do those the look-up counts |
| HostList.HiddenAfterListing | gui/src/qmlbackend.cpp:741-763 | Listing leaves exactly those hosts hidden that were hidden and are not both discovered and registered |
| HostList.NicknameAfterListing | gui/src/qmlbackend.cpp:753-763 | A hidden host has the name under which it was discovered last |
| HostList.NullHostAppears | gui/src/qmlbackend.cpp:747-763 | A hidden host without an address appears exactly if a discovered host with a name is taken out of the hidden hosts |
| HostList.DisplayServerAt | gui/src/qmlbackend.cpp:1733-1816 | The look-up by position, with its own filter for PSN hosts |
| HostList.ServerMeaning | gui/src/qmlbackend.cpp:1733-1816 | For every position: whether there is a server, and which host, manual entry and registration it carries |
| HostList.ListIsPrefix | gui/src/qmlbackend.cpp:818-842 | The listed PSN hosts are a first part of the counted ones if and only if the hosts hidden only by the list come last |
| HostList.LookupMatchesList | gui/src/qmlbackend.cpp:1733-1816 | Every position denotes the host shown there if and only if no listed PSN host stands behind one hidden only by the list |
| HostList.SurplusPs4ShiftsLookup | gui/src/qmlbackend.cpp:816-817 | The surplus PS4 entry alone makes the look-up return the wrong host |
| Base64.Encode | lib/src/base64.c:12-79 | Succeeds exactly if there is room for 4·ceil(n/3) symbols and the zero; what is written is a first part of that text, nothing behind it is touched |
| Base64.Decode | lib/src/base64.c:107-152 | Succeeds exactly if the text is clean and its bytes fit; reports invalid data exactly if it is not clean and its full groups fit; on success exactly the decoded bytes and their number; never writes past the given size |
| Base64.RoundTrip | lib/src/base64.c:107-152 | The decoder gives the bytes back from their text with line feeds put in anywhere |
| Base64Spec.EncodingLength | lib/src/base64.c:20-78 | Four symbols for every started group of three bytes |
| Base64Spec.AlphabetIsStandard | lib/src/base64.c:14 | The symbols are those of table 1 of RFC 4648 |
| Base64Spec.TableIsExact | lib/src/base64.c:81-98 | The decoding table has exactly the alphabet, the line feed and the padding character |
| Base64Spec.SameBits | lib/src/base64.c:25-37 | The bits of three bytes are those of their four sextets, most significant first |
| Base64Spec.CleanMeaning | lib/src/base64.c:113-123 | A text is accepted exactly if every invalid character stands behind a padding character |
| Base64Spec.BytesLength | lib/src/base64.c:120-149 | 3·(k/4) plus 0, 0, 1 or 2 bytes for k symbols |
| Base64Spec.LineFeedsDoNotMatter | lib/src/base64.c:86-98 | A text means the same with and without its line feeds |
| Base64Spec.DecodeEncode | lib/src/base64.c:20-152 | Every byte string survives encoding and decoding, with line feeds put in anywhere |
| Base64Spec.EncodeDecode | lib/src/base64.c:20-152 | A text survives decoding and encoding if and only if it is canonical |

## Left out

- Foreign code: Vulkan, OpenGL, Qt Quick, FFmpeg and libplacebo. The queue is a sequence that grows by pushes,
  shrinks from its old end on an update and empties on a reset; discard callbacks are not followed.
- Logging, statistics and overlay widgets, with the flags and ages that only feed them; and the decoder's own count of
  lost frames, which is added to the same drop counter.
- Mutexes as objects. Locked sections are atomic steps; that each path releases its locks is not claimed.
- The second release after a failed store in `queueStoredFrame` (`gui/src/qmlmainwindow.cpp:4300-4303`): ownership
  is stated at the boundary of `storePendingFrame`.
- The borrowing variant of the calls that take a frame (`take_ownership` off), which has no caller.
- The content of the reset seed and the frame snapshot; their clones are new arrivals.
- The hand-shake that schedules renders; the presenting thread's view of it may be any value unless a result says that
  it sees the pipeline idle only between two renders.
- The reset after a failed session start (`gui/src/qmlbackend.cpp:928`) submits seeds and kept frames from the thread of
  the user interface; the model lets only the render thread submit.
- The environment that sets the depth limit and the overflow switch is read again at every call; the model keeps both
  fixed for a run.
- Deciding when `scheduleBufferedUpdate` arms its pacer, and the drain for a change of the sync mode.
- Integer ranges, apart from the one unsigned subtraction of the clock and the pacer's generation counter; time
  stamps and durations are reals, so rounding of floating point is not modelled.
- Handoff.FrameHandoff.StorePendingFrame: the primary slot's fields are one optional entry and the clock's fields one
  record, and the lock-free copy of the origin is computed from the origin instead of being a field of its own.
- The clearing of the drop counter once a second (`gui/src/qmlmainwindow.cpp:5208-5216`): the counter is the total.
- PipelineSchedule.QueueOrder: leaves out resets, seeds and replays, which push old time stamps on purpose.
- ControllerMapping.MappingEditor.Begin: the fields that name the controller are one record; the SDL calls, the stick
  option of the controller and the signals to the user interface are not part of the model.
- ControllerMapping.MappingEditor.Apply: keys are compared by code point, where the source compares UTF-16 units.
- HostList.Hosts: settings and discovery results are values; the hidden hosts are returned instead of being written
  back, and signals are left out.
- Base64.Decode: takes ASCII; what the table does with other characters depends on the platform's `char`.
- Opus and audio headers, settings, discovery and PSN traffic, command line, wake and sleep hooks, drawing: thin
  wrappers around I/O.
