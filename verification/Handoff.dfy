/** The window object's side of the frame hand-off: the fields it keeps and the sections that update
    them under its mutexes.  Every method is one such section (or a helper called inside one); its
    contract gives the whole new state through the functions of HandoffSpec. */
module Handoff {
  import opened Wrappers
  import opened FrameSpec
  import opened MediaClock
  import opened HandoffSpec
  import opened HandoffLaws
  import opened HandoffMeaning

  function Slot(primary: Option<Entry>): seq<Entry> {
    if primary.Some? then [primary.value] else []
  }

  /** What the drop counter gains when a frame is stored: the entries a disabled deque still had, and one for a
      refused or evicted frame.  A warm-up frame that a real one takes the place of is not counted. */
  predicate CountedStore(overflowEnabled: bool, slot: Option<Entry>, deque: seq<Entry>, frame: Entry, stored: bool, gain: int) {
    var drained := if overflowEnabled then 0 else |deque|;
    if slot.None? || (slot.value.warmup && !frame.warmup) then stored && gain == drained
    else
      var newest := if overflowEnabled && deque != [] then deque[|deque| - 1].pts else slot.value.pts;
      && (stored <==> frame.pts > newest + 0.000001)
      && gain == drained + if !stored || !overflowEnabled || |deque| >= 2 then 1 else 0
  }

  lemma StoreIsCounted(c: Config, h: Hub, slot: Option<Entry>, deque: seq<Entry>, f: Entry, haveStateLock: bool, nowUs: nat)
    requires h.held == Slot(slot) + deque && (slot.None? ==> deque == [])
    ensures var s := Store(c.OverflowLimit(), h.held, Stamp(h, f, haveStateLock, nowUs));
            && CountedStore(c.overflowEnabled, slot, deque, f, s.accepted, |s.dropped|)
            && StoreHub(c, h, f, haveStateLock, nowUs).drops == h.drops + |s.dropped|
  {
    StoreCounts(c.OverflowLimit(), h.held, Stamp(h, f, haveStateLock, nowUs));
    if deque != [] {
      assert h.held[|h.held| - 1] == deque[|deque| - 1];
    }
  }

  class FrameHandoff {
    const config: Config

    // guarded by the state mutex
    var placeboQueue: seq<Entry>
    var clock: Clock
    var newestQueuedFramePts: real

    // guarded by the pending mutex
    var pendingFrame: Option<Entry>
    var pendingFrameOverflow: seq<Entry>

    // lock-free
    var pendingFramePresent: bool
    var pendingFrameSubmissionActive: bool
    var droppedFramesCurrent: nat

    /** The abstract state: the fields above plus the histories of frames that left. */
    ghost var hub: Hub

    /** The fields agree with the abstract state.  The primary slot followed by the overflow deque is
        the pending store; the deque is only used behind an occupied slot, and the presence flag tells
        whether the slot is occupied. */
    ghost predicate Valid()
      reads this
    {
      && config.Valid()
      && hub.queue == placeboQueue
      && hub.clock == clock
      && hub.newest == newestQueuedFramePts
      && hub.submitting == pendingFrameSubmissionActive
      && hub.drops == droppedFramesCurrent
      && hub.held == Slot(pendingFrame) + pendingFrameOverflow
      && (pendingFrame.None? ==> pendingFrameOverflow == [])
      && pendingFramePresent == pendingFrame.Some? == hub.present
    }

    constructor (config: Config)
      requires config.Valid()
      ensures Valid() && hub == InitialHub() && this.config == config
    {
      this.config := config;
      placeboQueue, clock, newestQueuedFramePts := [], Clock(NO_ORIGIN, 0, false, false), NOTHING_QUEUED;
      pendingFrame, pendingFrameOverflow := None, [];
      pendingFramePresent, pendingFrameSubmissionActive, droppedFramesCurrent := false, false, 0;
      hub := InitialHub();
    }

    // -------------------------------------------------------------------------------------------
    // The pending store

    /** Moves the oldest overflow entry into an empty primary slot.  Also callable in between, when the
        slot has just been emptied. */
    method PromotePendingFrameFromOverflowLocked() returns (present: bool)
      modifies `pendingFrame, `pendingFrameOverflow, `pendingFramePresent
      ensures present == pendingFrame.Some?
      ensures Slot(pendingFrame) + pendingFrameOverflow == old(Slot(pendingFrame) + pendingFrameOverflow)
      ensures pendingFrame.None? ==> pendingFrameOverflow == []
      ensures pendingFramePresent == if old(pendingFrame.Some?) then old(pendingFramePresent) else present
    {
      if pendingFrame.Some? {
        return true;
      }
      if pendingFrameOverflow == [] {
        pendingFramePresent := false;
        return false;
      }
      pendingFrame := Some(pendingFrameOverflow[0]);
      pendingFrameOverflow := pendingFrameOverflow[1..];
      pendingFramePresent := true;
      return true;
    }

    method TakePendingFrameLocked() returns (entry: Option<Entry>)
      requires Valid()
      modifies `pendingFrame, `pendingFrameOverflow, `pendingFramePresent, `hub
      ensures Valid()
      ensures old(hub.held) == [] ==> entry == None && hub == old(hub)
      ensures old(hub.held) != [] ==> entry == Some(old(hub.held)[0]) && hub == Take(old(hub))
      ensures Moved(config, old(hub), hub, [], Slot(entry))
    {
      if pendingFrame.None? {
        var promoted := PromotePendingFrameFromOverflowLocked();
        if !promoted {
          return None;
        }
      }
      entry := pendingFrame;
      pendingFrame := None;
      TakeMoves(config, hub);
      hub := Take(hub);
      var _ := PromotePendingFrameFromOverflowLocked();
    }

    /** Frees the primary frame; counting it is the caller's business. */
    method DropPendingFrameLocked()
      requires pendingFrame.Some?
      modifies `pendingFrame, `pendingFrameOverflow, `pendingFramePresent
      ensures Slot(pendingFrame) + pendingFrameOverflow == old(pendingFrameOverflow)
      ensures pendingFrame.None? ==> pendingFrameOverflow == []
      ensures pendingFramePresent == pendingFrame.Some?
    {
      pendingFrame := None;
      var _ := PromotePendingFrameFromOverflowLocked();
    }

    method ClearPendingFrameStateLocked()
      requires Valid()
      modifies `pendingFrame, `pendingFrameOverflow, `pendingFramePresent, `pendingFrameSubmissionActive, `hub
      ensures Valid() && hub == ClearPending(old(hub))
      ensures Moved(config, old(hub), hub, [], [])
    {
      ghost var freed := Slot(pendingFrame);
      pendingFrame := None;
      while pendingFrameOverflow != []
        invariant freed + pendingFrameOverflow == hub.held
        decreases |pendingFrameOverflow|
        modifies `pendingFrameOverflow
      {
        freed := freed + [pendingFrameOverflow[0]];
        pendingFrameOverflow := pendingFrameOverflow[1..];
      }
      pendingFramePresent := false;
      pendingFrameSubmissionActive := false;
      ClearMoves(config, hub);
      hub := ClearPending(hub);
    }

    method PrunePendingFramesBeforeLocked(cutoff: real)
      requires Valid()
      modifies `pendingFrame, `pendingFrameOverflow, `pendingFramePresent, `droppedFramesCurrent, `hub
      ensures Valid() && hub == PruneHub(old(hub), cutoff)
      ensures Moved(config, old(hub), hub, [], [])
      ensures droppedFramesCurrent == old(droppedFramesCurrent) + |old(hub.held)| - |hub.held|
    {
      if cutoff < 0.0 {
        return;
      }
      PruneFields(cutoff);
      PruneMoves(config, hub, cutoff);
      PruneDrops(hub, cutoff);
      hub := PruneHub(hub, cutoff);
    }

    method PruneFields(cutoff: real)
      requires cutoff >= 0.0 && (pendingFrame.None? ==> pendingFrameOverflow == [])
      modifies `pendingFrame, `pendingFrameOverflow, `pendingFramePresent, `droppedFramesCurrent
      ensures var h := old(Slot(pendingFrame) + pendingFrameOverflow);
              && Slot(pendingFrame) + pendingFrameOverflow == Prune(h, cutoff)
              && droppedFramesCurrent == old(droppedFramesCurrent) + |Pruned(h, cutoff)|
      ensures pendingFrame.None? ==> pendingFrameOverflow == []
      ensures pendingFramePresent == pendingFrame.Some?
    {
      PruneParts(Slot(pendingFrame), pendingFrameOverflow, cutoff);
      if pendingFrame.Some? && Prunable(pendingFrame.value, cutoff) {
        pendingFrame := None;
        droppedFramesCurrent := droppedFramesCurrent + 1;
      }
      PruneOverflow(cutoff);
      if pendingFrame.None? && pendingFrameOverflow != [] {
        var _ := PromotePendingFrameFromOverflowLocked();
      }
      pendingFramePresent := pendingFrame.Some? || pendingFrameOverflow != [];
    }

    /** The loop over the head of the overflow deque. */
    method PruneOverflow(cutoff: real)
      modifies `pendingFrameOverflow, `droppedFramesCurrent
      ensures var n := Covered(old(pendingFrameOverflow), Before(cutoff));
              && pendingFrameOverflow == old(pendingFrameOverflow)[n..]
              && droppedFramesCurrent == old(droppedFramesCurrent) + n
    {
      ghost var over := pendingFrameOverflow;
      ghost var i := 0;
      while pendingFrameOverflow != [] && Prunable(pendingFrameOverflow[0], cutoff)
        invariant 0 <= i <= |over| && pendingFrameOverflow == over[i..]
        invariant Covered(over, Before(cutoff)) == i + Covered(over[i..], Before(cutoff))
        invariant droppedFramesCurrent == old(droppedFramesCurrent) + i
        decreases |pendingFrameOverflow|
      {
        assert over[i..][1..] == over[i + 1..];
        pendingFrameOverflow := pendingFrameOverflow[1..];
        droppedFramesCurrent := droppedFramesCurrent + 1;
        i := i + 1;
      }
    }

    /** Returns the frame that is cloned for the reset seed and the snapshot. */
    method CloneNewestPendingFrameLocked() returns (newest: Option<Entry>)
      requires Valid()
      ensures newest == if hub.held == [] then None else Some(Newest(hub.held))
    {
      newest := pendingFrame;
      if pendingFrameOverflow != [] {
        var last := pendingFrameOverflow[|pendingFrameOverflow| - 1];
        var first := pendingFrame.value;
        if last.pts > first.pts + EPS || (-EPS <= last.pts - first.pts <= EPS && last.storedUs > first.storedUs) {
          newest := Some(last);
        }
      }
    }

    method InsertPendingOverflowLocked(entry: Entry)
      modifies `pendingFrameOverflow
      ensures pendingFrameOverflow == Insert(old(pendingFrameOverflow), entry)
    {
      var pos := 0;
      ghost var over := pendingFrameOverflow;
      while pos < |pendingFrameOverflow| && pendingFrameOverflow[pos].pts <= entry.pts + EPS
        invariant 0 <= pos <= |over| && pendingFrameOverflow == over
        invariant over[..pos] + Insert(over[pos..], entry) == Insert(over, entry)
      {
        InsertBehind(over, pos, entry);
        pos := pos + 1;
      }
      pendingFrameOverflow := pendingFrameOverflow[..pos] + [entry] + pendingFrameOverflow[pos..];
    }

    /** Takes ownership of `frame` whatever it returns.  `haveStateLock` is the result of the tryLock. */
    method StorePendingFrame(frame: Entry, haveStateLock: bool, nowUs: nat) returns (stored: bool)
      requires Valid()
      modifies `pendingFrame, `pendingFrameOverflow, `pendingFramePresent, `droppedFramesCurrent, `hub
      ensures Valid()
      ensures hub == StoreHub(config, old(hub), frame, haveStateLock, nowUs)
      ensures stored == Store(config.OverflowLimit(), old(hub.held), Stamp(old(hub), frame, haveStateLock, nowUs)).accepted
      ensures Moved(config, old(hub), hub, [frame], [])
      ensures CountedStore(config.overflowEnabled, old(pendingFrame), old(pendingFrameOverflow), frame,
                           stored, droppedFramesCurrent - old(droppedFramesCurrent))
    {
      StoreIsCounted(config, hub, pendingFrame, pendingFrameOverflow, frame, haveStateLock, nowUs);
      var origin := if haveStateLock then clock.origin else CachedOrigin(OriginUs(clock.origin));
      var entry := frame.(origin := origin, storedUs := nowUs);
      if !config.overflowEnabled {
        DrainOverflow();
      }
      ghost var held := hub.held;
      ghost var kept := Slot(pendingFrame) + pendingFrameOverflow;
      assert kept == if config.OverflowLimit() == 0 && held != [] then held[..1] else held;
      stored := StoreBehindPrimary(entry);
      StoreMoves(config, hub, frame, haveStateLock, nowUs);
      hub := StoreHub(config, hub, frame, haveStateLock, nowUs);
    }

    /** Overflow switched off: nothing may stay behind the primary frame. */
    method DrainOverflow()
      modifies `pendingFrameOverflow, `droppedFramesCurrent
      ensures pendingFrameOverflow == []
      ensures droppedFramesCurrent == old(droppedFramesCurrent) + |old(pendingFrameOverflow)|
    {
      while pendingFrameOverflow != []
        invariant droppedFramesCurrent + |pendingFrameOverflow| == old(droppedFramesCurrent) + |old(pendingFrameOverflow)|
        decreases |pendingFrameOverflow|
      {
        pendingFrameOverflow := pendingFrameOverflow[1..];
        droppedFramesCurrent := droppedFramesCurrent + 1;
      }
    }

    method StoreBehindPrimary(entry: Entry) returns (stored: bool)
      requires pendingFrame.None? ==> pendingFrameOverflow == []
      requires pendingFramePresent == pendingFrame.Some?
      modifies `pendingFrame, `pendingFrameOverflow, `pendingFramePresent, `droppedFramesCurrent
      ensures pendingFrame.Some? && pendingFramePresent
      ensures var s := StoreTail(config.OverflowLimit(), old(Slot(pendingFrame) + pendingFrameOverflow), entry);
              && stored == s.accepted
              && Slot(pendingFrame) + pendingFrameOverflow == s.held
              && droppedFramesCurrent == old(droppedFramesCurrent) + |s.dropped|
    {
      var limit := config.OverflowLimit();
      ghost var kept := Slot(pendingFrame) + pendingFrameOverflow;
      if pendingFrame.None? {
        pendingFrame := Some(entry);
      } else if pendingFrame.value.warmup && !entry.warmup {
        pendingFrame := Some(entry);
        assert pendingFrameOverflow == kept[1..];
      } else {
        var newestPending := if pendingFrameOverflow == [] then pendingFrame.value.pts else pendingFrameOverflow[|pendingFrameOverflow| - 1].pts;
        assert newestPending == kept[|kept| - 1].pts;
        if entry.pts <= newestPending + EPS {
          droppedFramesCurrent := droppedFramesCurrent + 1;
          return false;
        }
        assert kept[1..] == pendingFrameOverflow;
        if limit == 0 {
          droppedFramesCurrent := droppedFramesCurrent + 1;
          pendingFrame := Some(entry);
        } else {
          if |pendingFrameOverflow| >= limit {
            pendingFrameOverflow := pendingFrameOverflow[1..];
            droppedFramesCurrent := droppedFramesCurrent + 1;
            assert pendingFrameOverflow == kept[2..];
          }
          InsertPendingOverflowLocked(entry);
        }
      }
      pendingFramePresent := true;
      return true;
    }

    // -------------------------------------------------------------------------------------------
    // The sections of presentFrame

    method PresentAdoptOrigin(pts: real)
      requires Valid()
      modifies this
      ensures Valid() && hub == AdoptOrigin(old(hub), pts)
      ensures Moved(config, old(hub), hub, [], [])
      ensures if old(clock).origin < 0.0 || pts + 0.000001 < old(clock).origin then
                && placeboQueue == [] && newestQueuedFramePts == -1.0 && RefusesNothing(hub)
                && clock == Clock(pts, 0, false, old(clock).preserve)
              else hub == old(hub)
    {
      AdoptOriginMeaning(hub, pts);
      AdoptOriginMoves(config, hub, pts);
      if clock.origin < 0.0 || pts + EPS < clock.origin {
        placeboQueue := [];
        clock := clock.(tsStart := 0, origin := pts, started := false);
        newestQueuedFramePts := NOTHING_QUEUED;
        hub := hub.Emptied().(newest := NOTHING_QUEUED, clock := clock);
        PrunePendingFramesBeforeLocked(pts);
      }
    }

    method PresentSubmit(f: Entry, busy: bool, submitting: bool) returns (decision: Decision)
      requires Valid()
      modifies this
      ensures Valid()
      ensures decision == Decide(config, old(hub), busy, submitting)
      ensures hub == PresentLocked(config, old(hub), f, busy, submitting)
      ensures Moved(config, old(hub), hub, if decision.Direct? then [f] else [], if decision.Promote? then [decision.frame] else [])
      ensures var room := |old(placeboQueue)| < config.depthLimit;
              var pending := old(pendingFrame);
              && (decision.Promote? <==> !busy && room && pending.Some?)
              && (decision.Promote? ==> decision.frame == pending.value && placeboQueue == old(placeboQueue))
              && (decision.Direct? <==> room && pending.None? && !submitting)
              && (decision.Direct? ==> placeboQueue == old(placeboQueue) + [f])
              && (decision.Wait? <==> !room || (pending.Some? && busy) || (pending.None? && submitting))
              && (decision.Wait? ==> hub == old(hub))
    {
      DecideMeaning(config, hub, f, busy, submitting);
      PresentMoves(config, hub, f, busy, submitting);
      var depth := |placeboQueue|;
      var pendingExists := pendingFramePresent || submitting;
      var tolerated := config.depthLimit + (if pendingExists then 1 else 0);
      decision := Wait;
      if !busy && pendingExists && depth < config.depthLimit {
        var entry := TakePendingFrameLocked();
        if entry.Some? {
          decision := Promote(entry.value);
        }
      }
      if depth < tolerated && !decision.Promote? && !pendingExists {
        PushFrame(f, !f.warmup);
        decision := Direct;
      }
    }

    /** Pushes a frame; `track` says whether it counts for the newest queued time stamp. */
    method PushFrame(e: Entry, track: bool)
      requires Valid()
      modifies `placeboQueue, `newestQueuedFramePts, `hub
      ensures Valid() && hub == if track then old(hub).Push(e).Raise(e.pts) else old(hub).Push(e)
    {
      placeboQueue := placeboQueue + [e];
      hub := hub.Push(e);
      if track && newestQueuedFramePts < e.pts {
        newestQueuedFramePts := e.pts;
        hub := hub.Raise(e.pts);
      }
    }

    /** The frame joins the queue, and from now on every frame that is not newer is refused. */
    method PresentPushPromoted(p: Entry)
      requires Valid()
      modifies this
      ensures Valid() && hub == PushPromoted(old(hub), p)
      ensures Moved(config, old(hub), hub, [p], [])
      ensures p.pts >= 0.0 ==> RefusesUpTo(old(hub), hub, p.pts)
    {
      PushMoves(config, hub, p);
      if p.pts >= 0.0 {
        PushRefuses(hub, p);
      }
      PushFrame(p, true);
    }

    /** Frames that became stale behind a frame queued directly are dropped one by one. */
    method PresentDropStale(pts: real)
      requires Valid()
      modifies this
      ensures Valid() && hub == DropStale(old(hub), pts)
      ensures Moved(config, old(hub), hub, [], [])
      ensures droppedFramesCurrent == old(droppedFramesCurrent) + |old(hub.held)| - |hub.held|
    {
      DropStalePending(pts);
      DropStaleMoves(config, hub, pts);
      hub := DropStale(hub, pts);
    }

    method DropStalePending(pts: real)
      requires pendingFrame.None? ==> pendingFrameOverflow == []
      requires pendingFramePresent == pendingFrame.Some?
      modifies `pendingFrame, `pendingFrameOverflow, `pendingFramePresent, `droppedFramesCurrent
      ensures var h := old(Slot(pendingFrame) + pendingFrameOverflow);
              var n := Covered(h, UpTo(pts));
              && Slot(pendingFrame) + pendingFrameOverflow == h[n..]
              && droppedFramesCurrent == old(droppedFramesCurrent) + n
      ensures pendingFrame.None? ==> pendingFrameOverflow == []
      ensures pendingFramePresent == pendingFrame.Some?
    {
      ghost var h := Slot(pendingFrame) + pendingFrameOverflow;
      ghost var i := 0;
      while pendingFrame.Some? && pendingFrame.value.pts <= pts + EPS
        invariant 0 <= i <= |h| && Slot(pendingFrame) + pendingFrameOverflow == h[i..]
        invariant Covered(h, UpTo(pts)) == i + Covered(h[i..], UpTo(pts))
        invariant pendingFrame.None? ==> pendingFrameOverflow == []
        invariant pendingFramePresent == pendingFrame.Some?
        invariant droppedFramesCurrent == old(droppedFramesCurrent) + i
        decreases |h| - i
      {
        assert h[i..][1..] == h[i + 1..] && h[i..][0] == pendingFrame.value;
        assert h[i..][1..] == pendingFrameOverflow;
        droppedFramesCurrent := droppedFramesCurrent + 1;
        DropPendingFrameLocked();
        i := i + 1;
      }
    }

    /** A running clock is never disturbed.  A real frame starts a clock that stands, so that the frame is
        due now, to the microsecond. */
    method PresentStartClock(f: Entry, rel: real, nowUs: nat)
      requires Valid()
      modifies `clock, `hub
      ensures Valid() && hub == StartClock(old(hub), f, rel, nowUs)
      ensures f.warmup || old(clock).started ==> clock == old(clock)
      ensures !f.warmup && !old(clock).started ==> clock.started && DueAt(clock.tsStart, rel, nowUs)
      ensures clock.origin == old(clock).origin
      ensures Moved(config, old(hub), hub, [], [])
    {
      StartMakesDue(rel, nowUs);
      if !f.warmup && !clock.started {
        clock := clock.(tsStart := StartAt(rel, nowUs), started := true);
      }
      hub := StartClock(hub, f, rel, nowUs);
    }

    // -------------------------------------------------------------------------------------------
    // The sections of applyPendingFrame and queueStoredFrame

    method ApplyClaim() returns (entry: Option<Entry>)
      requires Valid()
      modifies this
      ensures Valid() && hub == Claim(old(hub))
      ensures entry == if old(hub.held) == [] then None else Some(old(hub.held)[0])
      ensures pendingFrameSubmissionActive == entry.Some?
      ensures Moved(config, old(hub), hub, [], Slot(entry))
    {
      ClaimMoves(config, hub);
      pendingFrameSubmissionActive := true;
      hub := hub.(submitting := true);
      entry := TakePendingFrameLocked();
      if entry.None? {
        pendingFrameSubmissionActive := false;
        hub := hub.(submitting := false);
      }
    }

    method ApplyFinish()
      requires Valid()
      modifies `pendingFrameSubmissionActive, `hub
      ensures Valid() && hub == Finish(old(hub)) && !pendingFrameSubmissionActive
    {
      pendingFrameSubmissionActive := false;
      hub := Finish(hub);
    }

    method QueueStoredFrameLocked(e: Entry) returns (outcome: Outcome)
      requires Valid()
      modifies this
      ensures Valid()
      ensures outcome == SubmitOutcome(config, old(hub), e)
      ensures hub == SubmitLocked(config, old(hub), e)
      ensures Moved(config, old(hub), hub, if outcome.Deferred? then [] else [e], [])
      ensures var stale := !e.warmup && old(newestQueuedFramePts) >= 0.0 && e.pts <= old(newestQueuedFramePts) + 0.000001;
              var back := !e.warmup && (old(clock).origin < 0.0 || e.pts + 0.000001 < old(clock).origin);
              && (outcome.Stale? <==> stale)
              && (stale ==> droppedFramesCurrent == old(droppedFramesCurrent) + 1 && hub.held == old(hub.held))
              && (outcome.Deferred? <==> !stale && !back && |old(placeboQueue)| >= config.depthLimit)
              && (outcome.Queued? ==> placeboQueue == (if back then [] else old(placeboQueue)) + [e])
    {
      SubmitMeaning(config, hub, e);
      SubmitMoves(config, hub, e);
      if !e.warmup && newestQueuedFramePts >= 0.0 && e.pts <= newestQueuedFramePts + EPS {
        droppedFramesCurrent := droppedFramesCurrent + 1;
        hub := hub.Drop([e]);
        return Stale;
      }
      QueueStoredFrameOrigin(e);
      if |placeboQueue| >= config.depthLimit {
        return Deferred;
      }
      PushFrame(e, !e.warmup);
      return Queued;
    }

    method QueueStoredFrameOrigin(e: Entry)
      requires Valid()
      modifies this
      ensures Valid() && hub == SubmitOrigin(old(hub), e)
      ensures Moved(config, old(hub), hub, [], []) && !clock.preserve
    {
      SubmitOriginMoves(config, hub, e);
      if !e.warmup && (clock.origin < 0.0 || e.pts + EPS < clock.origin) {
        RollBackTo(e.pts);
      } else {
        clock := clock.(preserve := false);
        hub := hub.(clock := clock);
      }
    }

    method RollBackTo(pts: real)
      requires Valid()
      modifies this
      ensures Valid()
      ensures hub == PruneHub(old(hub).Emptied().(newest := NOTHING_QUEUED, clock := Rollback(old(clock), pts)), pts)
    {
      placeboQueue := [];
      newestQueuedFramePts := NOTHING_QUEUED;
      RollClockBack(pts);
      hub := hub.Emptied().(newest := NOTHING_QUEUED, clock := clock);
      PrunePendingFramesBeforeLocked(pts);
    }

    method RollClockBack(pts: real)
      modifies `clock
      ensures clock == Rollback(old(clock), pts)
    {
      var preserve := clock.preserve;
      var oldOrigin := clock.origin;
      clock := clock.(origin := pts, preserve := false);
      if preserve && oldOrigin >= 0.0 && clock.started {
        var moved := clock.tsStart + TruncUs(clock.origin - oldOrigin);
        clock := clock.(tsStart := if moved < 0 then 0 else moved);
      } else {
        clock := clock.(tsStart := 0, started := false);
      }
    }

    /** A clock that stands is started for the frame; one that runs jumps exactly if the frame is more than two of
        its durations, and more than 50 milliseconds, ahead. */
    method QueueStoredFrameClock(rel: real, duration: real, nowUs: nat)
      requires Valid()
      modifies `clock, `hub
      ensures Valid() && hub == SubmitClock(old(hub), rel, duration, nowUs)
      ensures clock.started && clock.origin == old(clock).origin
      ensures old(clock).tsStart <= nowUs < WRAP ==>
                var ahead := rel - FromUs(nowUs - old(clock).tsStart);
                if !old(clock).started || (old(clock).tsStart > 0 && ahead > 0.05 && ahead > 2.0 * duration)
                then DueAt(clock.tsStart, rel, nowUs)
                else clock.tsStart == old(clock).tsStart
      ensures Moved(config, old(hub), hub, [], [])
    {
      if clock.tsStart <= nowUs < WRAP {
        CatchUpMeaning(clock, rel, duration, nowUs);
      }
      AdvanceClock(rel, duration, nowUs);
      hub := SubmitClock(hub, rel, duration, nowUs);
    }

    /** The subtraction is the unsigned one of the source. */
    method AdvanceClock(rel: real, duration: real, nowUs: nat)
      modifies `clock
      ensures clock == CatchUp(old(clock), rel, duration, nowUs)
    {
      if !clock.started {
        clock := clock.(tsStart := StartAt(rel, nowUs), started := true);
      } else if clock.tsStart != 0 {
        var current := FromUs(SubU64(nowUs, clock.tsStart));
        var threshold := if duration * 2.0 > 0.05 then duration * 2.0 else 0.05;
        if rel > current + threshold {
          clock := clock.(tsStart := StartAt(rel, nowUs));
        }
      }
    }

    // -------------------------------------------------------------------------------------------
    // Resets, replay and session change

    method PlaceboUpdate(n: nat)
      requires Valid()
      modifies `placeboQueue, `hub
      ensures Valid() && hub == Update(old(hub), n)
      ensures Moved(config, old(hub), hub, [], [])
    {
      UpdateMoves(config, hub, n);
      var k := if n <= |placeboQueue| then n else |placeboQueue|;
      placeboQueue := placeboQueue[k..];
      hub := Update(hub, n);
    }

    /** The frame joins the queue again.  A clock that runs with an origin is not disturbed; a clock that stands
        starts at its origin, which is the kept frame's time stamp if there was none. */
    method ReplayKeptFrame(kept: Entry, nowUs: nat)
      requires Valid()
      modifies this
      ensures Valid() && hub == Replay(old(hub), kept, nowUs)
      ensures Moved(config, old(hub), hub, [kept], [])
      ensures old(clock).started && old(clock).origin >= 0.0 ==> clock == old(clock)
      ensures clock.started && (!old(clock).started ==> Timeline(clock, nowUs) == clock.origin)
      ensures old(clock).origin < 0.0 ==> clock.origin == kept.pts
      ensures kept.pts >= 0.0 ==> RefusesUpTo(old(hub), hub, kept.pts)
    {
      PushMoves(config, hub, kept);
      if kept.pts >= 0.0 {
        PushRefuses(hub, kept);
      }
      var origin := if clock.origin < 0.0 then kept.pts else clock.origin;
      PushFrame(kept, true);
      clock := clock.(origin := origin);
      if !clock.started {
        clock := clock.(tsStart := nowUs, started := true);
      }
      hub := hub.(clock := clock);
    }

    /** Afterwards the queue is empty and no frame is refused as stale.  A running clock that is kept shows the
        same time stamp as before at every instant; otherwise the next real frame sets a new origin. */
    method ResetPlaceboQueueLocked(preserve: bool)
      requires Valid()
      modifies this
      ensures Valid() && hub == ResetQueue(old(hub), preserve)
      ensures Moved(config, old(hub), hub, [], []) && placeboQueue == []
      ensures forall e :: !IsStale(hub, e)
      ensures var running := old(clock).started && old(clock).origin >= 0.0;
              if preserve && running then
                clock.preserve && forall now :: Timeline(clock, now) == Timeline(old(clock), now)
              else
                !clock.started && forall pts :: NeedsRollback(clock, pts, EPS)
    {
      EmptiedMoves(config, hub, NOTHING_QUEUED, ResetQueue(hub, preserve).clock);
      placeboQueue := [];
      newestQueuedFramePts := NOTHING_QUEUED;
      var keep := preserve && clock.origin >= 0.0 && clock.started;
      clock := clock.(preserve := keep);
      if !keep {
        clock := Clock(NO_ORIGIN, 0, false, false);
      }
      hub := ResetQueue(hub, preserve);
    }

    method SessionChanged()
      requires Valid()
      modifies this
      ensures Valid() && hub == EndSession(old(hub))
      ensures Moved(config, old(hub), hub, [], []) && hub.held == [] && placeboQueue == []
      ensures clock.origin < 0.0 && clock.tsStart == 0 && !clock.started && RefusesNothing(hub)
      ensures droppedFramesCurrent == old(droppedFramesCurrent) && !pendingFrameSubmissionActive
    {
      EndSessionMoves(config, hub);
      placeboQueue := [];
      newestQueuedFramePts := NOTHING_QUEUED;
      clock := clock.(origin := NO_ORIGIN, started := false, tsStart := 0);
      hub := hub.Emptied().(newest := NOTHING_QUEUED, clock := clock);
      ClearPendingFrameStateLocked();
    }
  }
}
