/** What the locked sections of the frame hand-off keep, whatever state they find. */
module HandoffLaws {
  import opened FrameSpec
  import opened MediaClock
  import opened HandoffSpec

  // ---------------------------------------------------------------------------------------------
  // Shape

  lemma PruneShape(c: Config, h: Hub, cutoff: real)
    requires HubShape(c, h)
    ensures HubShape(c, PruneHub(h, cutoff))
  {
    PruneKeepsGood(h.held, cutoff);
    PruneCounts(h.held, cutoff, 0);
  }

  lemma TakeShape(c: Config, h: Hub)
    requires HubShape(c, h) && h.held != []
    ensures HubShape(c, Take(h)) && WellStamped(h.held[0])
  {
    GoodSuffix(h.held, 1);
    if Real(h.held) {
      RealAt(h.held, 0);
    }
  }

  lemma StoreShape(c: Config, h: Hub, f: Entry, lock: bool, now: nat)
    requires HubShape(c, h) && WellStamped(f)
    ensures HubShape(c, StoreHub(c, h, f, lock, now))
  {
    StoreOnGood(c.OverflowLimit(), h.held, Stamp(h, f, lock, now));
  }

  lemma DropStaleShape(c: Config, h: Hub, pts: real)
    requires HubShape(c, h)
    ensures HubShape(c, DropStale(h, pts))
  {
    CutUpToGood(h.held, pts);
  }

  lemma SubmitShape(c: Config, h: Hub, e: Entry)
    requires HubShape(c, h)
    ensures HubShape(c, SubmitOrigin(h, e)) && |SubmitOrigin(h, e).queue| <= |h.queue|
    ensures HubShape(c, SubmitLocked(c, h, e))
  {
    if !e.warmup && NeedsRollback(h.clock, e.pts, EPS) {
      PruneShape(c, h.Emptied().(newest := NOTHING_QUEUED, clock := Rollback(h.clock, e.pts)), e.pts);
    }
  }

  // ---------------------------------------------------------------------------------------------
  // Frames are neither lost nor made up

  /** How often the AVFrame `id` sits in the shared state, or has left it. */
  function HubCount(h: Hub, id: nat): nat {
    Count(h.queue, id) + Count(h.gone, id) + Count(h.held, id) + Count(h.dropped, id) + Count(h.released, id)
  }

  lemma EmptiedCount(h: Hub, id: nat)
    ensures HubCount(h.Emptied(), id) == HubCount(h, id)
  {
    CountAppend(h.gone, h.queue, id);
  }

  lemma PruneCount(h: Hub, cutoff: real, id: nat)
    ensures HubCount(PruneHub(h, cutoff), id) == HubCount(h, id)
  {
    PruneCounts(h.held, cutoff, id);
    CountAppend(h.dropped, Pruned(h.held, cutoff), id);
  }

  lemma TakeCount(h: Hub, id: nat)
    requires h.held != []
    ensures HubCount(Take(h), id) + Count([h.held[0]], id) == HubCount(h, id)
  {
    assert h.held == [h.held[0]] + h.held[1..];
    CountAppend([h.held[0]], h.held[1..], id);
  }

  lemma PushCount(h: Hub, e: Entry, id: nat)
    ensures HubCount(h.Push(e), id) == HubCount(h, id) + Count([e], id)
  {
    CountAppend(h.queue, [e], id);
  }

  lemma StoreCount(c: Config, h: Hub, f: Entry, lock: bool, now: nat, id: nat)
    ensures HubCount(StoreHub(c, h, f, lock, now), id) == HubCount(h, id) + Count([f], id)
  {
    var e := Stamp(h, f, lock, now);
    var s := Store(c.OverflowLimit(), h.held, e);
    StoreConserves(c.OverflowLimit(), h.held, e, id);
    CountAppend(h.dropped, s.dropped, id);
    CountAppend(h.released, s.released, id);
    assert Count([e], id) == Count([f], id);
  }

  lemma DropStaleCount(h: Hub, pts: real, id: nat)
    ensures HubCount(DropStale(h, pts), id) == HubCount(h, id)
  {
    var n := Covered(h.held, UpTo(pts));
    CountSplit(h.held, n, id);
    CountAppend(h.dropped, h.held[..n], id);
  }

  lemma SubmitOriginCount(h: Hub, e: Entry, id: nat)
    ensures HubCount(SubmitOrigin(h, e), id) == HubCount(h, id)
  {
    if !e.warmup && NeedsRollback(h.clock, e.pts, EPS) {
      EmptiedCount(h, id);
      PruneCount(h.Emptied().(newest := NOTHING_QUEUED, clock := Rollback(h.clock, e.pts)), e.pts, id);
    }
  }

  lemma SubmitCount(c: Config, h: Hub, e: Entry, id: nat)
    ensures HubCount(SubmitLocked(c, h, e), id) ==
            HubCount(h, id) + (if SubmitOutcome(c, h, e).Deferred? then 0 else Count([e], id))
  {
    SubmitOriginCount(h, e, id);
    CountAppend(h.dropped, [e], id);
    PushCount(SubmitOrigin(h, e), e, id);
  }

  lemma EndSessionCount(h: Hub, id: nat)
    ensures HubCount(EndSession(h), id) == HubCount(h, id)
  {
    EmptiedCount(h, id);
    CountAppend(h.released, h.held, id);
  }

  lemma PresentLockedCount(c: Config, h: Hub, f: Entry, busy: bool, submitting: bool, id: nat)
    ensures HubCount(PresentLocked(c, h, f, busy, submitting), id) +
            (match Decide(c, h, busy, submitting) case Promote(p) => Count([p], id) case Direct => 0 case Wait => 0) ==
            HubCount(h, id) + (if Decide(c, h, busy, submitting).Direct? then Count([f], id) else 0)
  {
    match Decide(c, h, busy, submitting)
    case Promote(p) => TakeCount(h, id);
    case Direct => PushCount(h, f, id);
    case Wait =>
  }

  lemma UpdateCount(h: Hub, n: nat, id: nat)
    ensures HubCount(Update(h, n), id) == HubCount(h, id)
  {
    var k := if n <= |h.queue| then n else |h.queue|;
    CountSplit(h.queue, k, id);
    CountAppend(h.gone, h.queue[..k], id);
  }

  // ---------------------------------------------------------------------------------------------
  // Both laws, section by section

  /** `r` has every frame that `h` and `entering` had except those in `leaving`, counting also the frames that
      were freed or shown; the counter moves by just the frames dropped; and a well-shaped store stays well-shaped. */
  ghost predicate Moved(c: Config, h: Hub, r: Hub, entering: seq<Entry>, leaving: seq<Entry>) {
    && (forall id :: HubCount(r, id) + Count(leaving, id) == HubCount(h, id) + Count(entering, id))
    && h.dropped <= r.dropped && r.drops - h.drops == |r.dropped| - |h.dropped|
    && h.released <= r.released
    && (HubShape(c, h) && (forall e :: e in entering ==> WellStamped(e)) ==> HubShape(c, r))
  }

  lemma TakeMoves(c: Config, h: Hub)
    requires h.held != []
    ensures Moved(c, h, Take(h), [], [h.held[0]])
  {
    forall id
      ensures HubCount(Take(h), id) + Count([h.held[0]], id) == HubCount(h, id)
    {
      TakeCount(h, id);
    }
    if HubShape(c, h) {
      TakeShape(c, h);
    }
  }

  lemma PruneMoves(c: Config, h: Hub, cutoff: real)
    ensures Moved(c, h, PruneHub(h, cutoff), [], [])
  {
    forall id
      ensures HubCount(PruneHub(h, cutoff), id) == HubCount(h, id)
    {
      PruneCount(h, cutoff, id);
    }
    if HubShape(c, h) {
      PruneShape(c, h, cutoff);
    }
  }

  /** Emptying the queue and changing the clock, then anything. */
  lemma EmptiedMoves(c: Config, h: Hub, newest: real, clock: Clock)
    ensures Moved(c, h, h.Emptied().(newest := newest, clock := clock), [], [])
  {
    forall id
      ensures HubCount(h.Emptied().(newest := newest, clock := clock), id) == HubCount(h, id)
    {
      EmptiedCount(h, id);
    }
  }

  lemma AdoptOriginMoves(c: Config, h: Hub, pts: real)
    ensures Moved(c, h, AdoptOrigin(h, pts), [], [])
  {
    if NeedsRollback(h.clock, pts, EPS) {
      var clock := Clock(pts, 0, false, h.clock.preserve);
      EmptiedMoves(c, h, NOTHING_QUEUED, clock);
      PruneMoves(c, h.Emptied().(newest := NOTHING_QUEUED, clock := clock), pts);
    }
  }

  lemma PushMoves(c: Config, h: Hub, e: Entry)
    ensures Moved(c, h, h.Push(e), [e], []) && Moved(c, h, h.Push(e).Raise(e.pts), [e], [])
  {
    forall id
      ensures HubCount(h.Push(e), id) == HubCount(h, id) + Count([e], id)
    {
      PushCount(h, e, id);
    }
  }

  lemma PresentMoves(c: Config, h: Hub, f: Entry, busy: bool, submitting: bool)
    ensures var d := Decide(c, h, busy, submitting);
            Moved(c, h, PresentLocked(c, h, f, busy, submitting),
                  if d.Direct? then [f] else [], if d.Promote? then [d.frame] else [])
  {
    match Decide(c, h, busy, submitting)
    case Promote(_) => TakeMoves(c, h);
    case Direct => PushMoves(c, h, f);
    case Wait =>
  }

  lemma StoreMoves(c: Config, h: Hub, f: Entry, lock: bool, now: nat)
    ensures Moved(c, h, StoreHub(c, h, f, lock, now), [f], [])
  {
    forall id
      ensures HubCount(StoreHub(c, h, f, lock, now), id) == HubCount(h, id) + Count([f], id)
    {
      StoreCount(c, h, f, lock, now, id);
    }
    assert f in [f];
    if HubShape(c, h) && WellStamped(f) {
      StoreShape(c, h, f, lock, now);
    }
  }

  lemma DropStaleMoves(c: Config, h: Hub, pts: real)
    ensures Moved(c, h, DropStale(h, pts), [], [])
  {
    forall id
      ensures HubCount(DropStale(h, pts), id) == HubCount(h, id)
    {
      DropStaleCount(h, pts, id);
    }
    if HubShape(c, h) {
      DropStaleShape(c, h, pts);
    }
  }

  lemma ClaimMoves(c: Config, h: Hub)
    ensures Moved(c, h, Claim(h), [], if h.held == [] then [] else [h.held[0]])
  {
    if h.held != [] {
      TakeMoves(c, h);
    }
  }

  lemma SubmitOriginMoves(c: Config, h: Hub, e: Entry)
    ensures Moved(c, h, SubmitOrigin(h, e), [], [])
  {
    if !e.warmup && NeedsRollback(h.clock, e.pts, EPS) {
      var clock := Rollback(h.clock, e.pts);
      EmptiedMoves(c, h, NOTHING_QUEUED, clock);
      PruneMoves(c, h.Emptied().(newest := NOTHING_QUEUED, clock := clock), e.pts);
    }
  }

  lemma SubmitMoves(c: Config, h: Hub, e: Entry)
    ensures Moved(c, h, SubmitLocked(c, h, e), if SubmitOutcome(c, h, e).Deferred? then [] else [e], [])
  {
    forall id
      ensures HubCount(SubmitLocked(c, h, e), id) ==
              HubCount(h, id) + (if SubmitOutcome(c, h, e).Deferred? then 0 else Count([e], id))
    {
      SubmitCount(c, h, e, id);
    }
    SubmitOriginMoves(c, h, e);
    if HubShape(c, h) {
      SubmitShape(c, h, e);
    }
  }

  lemma UpdateMoves(c: Config, h: Hub, n: nat)
    ensures Moved(c, h, Update(h, n), [], [])
  {
    forall id
      ensures HubCount(Update(h, n), id) == HubCount(h, id)
    {
      UpdateCount(h, n, id);
    }
  }

  lemma ClearMoves(c: Config, h: Hub)
    ensures Moved(c, h, ClearPending(h), [], [])
  {
    forall id
      ensures HubCount(ClearPending(h), id) == HubCount(h, id)
    {
      CountAppend(h.released, h.held, id);
    }
  }

  lemma EndSessionMoves(c: Config, h: Hub)
    ensures Moved(c, h, EndSession(h), [], [])
  {
    forall id
      ensures HubCount(EndSession(h), id) == HubCount(h, id)
    {
      EndSessionCount(h, id);
    }
  }

  // ---------------------------------------------------------------------------------------------
  // Staleness and the time line across sections

  /** Real frames that are not newer than `pts` are refused, and so is all that was refused before. */
  ghost predicate RefusesUpTo(h: Hub, r: Hub, pts: real) {
    forall e: Entry :: !e.warmup && (IsStale(h, e) || e.pts <= pts) ==> IsStale(r, e)
  }

  lemma PushRefuses(h: Hub, p: Entry)
    requires p.pts >= 0.0
    ensures RefusesUpTo(h, PushPromoted(h, p), p.pts)
  {
  }

  /** After a reset that keeps the time line, the first older frame that is submitted rolls back: the time stamp
      due moves by less than a microsecond exactly if the start instant needs no clamping, and the permission to
      keep the time line is used up. */
  lemma ResetThenSubmit(h: Hub, e: Entry, now: nat)
    requires h.clock.started && h.clock.origin >= 0.0 && h.clock.tsStart <= now < WRAP
    requires !e.warmup && e.pts + EPS < h.clock.origin
    ensures var r := SubmitOrigin(ResetQueue(h, true), e);
            var s := SubmitClock(r, e.pts - r.clock.origin, e.duration, now);
            && s.queue == [] && s.clock.origin == e.pts && !s.clock.preserve
            && (-1.0 < ToUs(Timeline(s.clock, now) - Timeline(h.clock, now)) < 1.0
                <==> h.clock.tsStart + TruncUs(e.pts - h.clock.origin) >= 0)
  {
    PreservedRollback(h.clock.(preserve := true), e.pts, e.duration, now, EPS);
  }
}
