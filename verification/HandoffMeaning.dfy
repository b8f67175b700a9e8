/** What the sections of the frame hand-off do, in terms of the fields of the shared state alone. */
module HandoffMeaning {
  import opened FrameSpec
  import opened MediaClock
  import opened HandoffSpec

  // ---------------------------------------------------------------------------------------------
  // Storing

  /** Position of the frame that has to go when the store is full: the oldest one behind the primary frame, or
      that one itself if nothing may stay behind it. */
  function Evicted(limit: nat): nat {
    if limit == 0 then 0 else 1
  }

  /** Storing into a good store.  A warm-up frame that a real one takes the place of is freed without being counted, and
      nothing else is; a frame that is not newer is dropped itself; a full store drops one frame for it. */
  lemma StoreMeaning(limit: nat, held: seq<Entry>, e: Entry)
    requires Good(held) && |held| <= 1 + limit && WellStamped(e)
    ensures var s := Store(limit, held, e);
            var instead := held != [] && held[0].warmup && !e.warmup;
            if instead then
              s == Stored([e], true, [], held)
            else if held != [] && e.pts <= held[|held| - 1].pts + 0.000001 then
              s == Stored(held, false, [e], [])
            else if |held| == 1 + limit then
              var i := Evicted(limit);
              s == Stored(held[..i] + held[i + 1..] + [e], true, [held[i]], [])
            else
              s == Stored(held + [e], true, [], [])
  {
    var kept := if limit == 0 && held != [] then held[..1] else held;
    assert kept == held;
    assert [] + StoreTail(limit, kept, e).dropped == StoreTail(limit, kept, e).dropped;
    if held == [] || (held[0].warmup && !e.warmup) {
      assert held != [] ==> [e] + held[1..] == [e];
    } else if e.pts > held[|held| - 1].pts + EPS {
      StoreNewerMeaning(limit, held, e);
    }
  }

  lemma StoreNewerMeaning(limit: nat, held: seq<Entry>, e: Entry)
    requires Good(held) && 0 < |held| <= 1 + limit && WellStamped(e)
    requires !(held[0].warmup && !e.warmup) && held[|held| - 1].pts + EPS < e.pts
    ensures var s := StoreTail(limit, held, e);
            if |held| == 1 + limit then
              var i := Evicted(limit);
              s == Stored(held[..i] + held[i + 1..] + [e], true, [held[i]], [])
            else s == Stored(held + [e], true, [], [])
  {
    if limit == 0 {
      assert [e] + held[1..] == held[..0] + held[1..] + [e];
    } else {
      StoreAppends(limit, held, e);
      assert |held| > 1 ==> [held[0]] + held[2..] == held[..1] + held[2..];
    }
  }

  /** Whether a frame is stored, and what the counter gains, on every store. */
  lemma StoreCounts(limit: nat, held: seq<Entry>, e: Entry)
    ensures var s := Store(limit, held, e);
            var drained := if limit == 0 && held != [] then |held| - 1 else 0;
            var newest := if held == [] then 0.0 else if limit == 0 then held[0].pts else held[|held| - 1].pts;
            if held == [] || (held[0].warmup && !e.warmup) then s.accepted && |s.dropped| == drained
            else && (s.accepted <==> e.pts > newest + 0.000001)
                 && |s.dropped| == drained + if !s.accepted || limit == 0 || |held| > limit then 1 else 0
  {
  }

  /** A stored frame remembers when it was stored and the origin, exactly or to half a microsecond. */
  lemma StampMeaning(h: Hub, f: Entry, haveStateLock: bool, nowUs: nat)
    ensures var e := Stamp(h, f, haveStateLock, nowUs);
            && e.frame == f.frame && e.pts == f.pts && e.duration == f.duration && e.warmup == f.warmup
            && e.storedUs == nowUs
            && (haveStateLock ==> e.origin == h.clock.origin)
            && (e.origin < 0.0 <==> h.clock.origin < 0.0)
            && (h.clock.origin >= 0.0 ==> -0.5 <= ToUs(e.origin - h.clock.origin) <= 0.5)
  {
    CachedOriginClose(h.clock.origin);
  }

  // ---------------------------------------------------------------------------------------------
  // Removing

  lemma PruneDrops(h: Hub, cutoff: real)
    ensures var r := PruneHub(h, cutoff); r.drops == h.drops + |h.held| - |r.held|
  {
    PruneCounts(h.held, cutoff, 0);
  }

  /** Pruning in plain numbers. */
  lemma PruneMeaning(h: Hub, cutoff: real, x: Entry)
    requires Good(h.held)
    ensures var r := PruneHub(h, cutoff);
            var obsolete := x.pts + 0.000001 < cutoff || (x.warmup && x.pts <= cutoff + 0.000001);
            && (x in r.held <==> x in h.held && (cutoff < 0.0 || !obsolete))
            && r.drops == h.drops + |h.held| - |r.held| && r.released == h.released
            && r.queue == h.queue && r.clock == h.clock && r.newest == h.newest && r.submitting == h.submitting
  {
    PruneKeepsGood(h.held, cutoff);
    PruneCounts(h.held, cutoff, 0);
  }

  /** The clean-up behind a frame queued directly, in plain numbers. */
  lemma DropStaleMeaning(h: Hub, pts: real, x: Entry)
    requires Good(h.held)
    ensures var r := DropStale(h, pts);
            && (x in r.held <==> x in h.held && x.pts > pts + 0.000001)
            && r.drops == h.drops + |h.held| - |r.held| && r.released == h.released
            && r.queue == h.queue && r.clock == h.clock && r.newest == h.newest && r.submitting == h.submitting
  {
    CutUpToGood(h.held, pts);
  }

  /** The end of a session frees everything without counting it and unsets the clock. */
  lemma EndSessionMeaning(h: Hub)
    ensures var r := EndSession(h);
            && r.queue == [] && r.held == [] && !r.present && !r.submitting && r.newest == -1.0
            && r.clock.origin < 0.0 && r.clock.tsStart == 0 && !r.clock.started
            && r.drops == h.drops && r.dropped == h.dropped
            && r.released == h.released + h.held && r.gone == h.gone + h.queue
  {
  }

  // ---------------------------------------------------------------------------------------------
  // Deciding

  /** What becomes of an arriving frame.  A pending frame is promoted exactly if the pipeline is idle and the queue
      has room; the arrival goes straight to the queue exactly if there is room and nothing is pending or being
      submitted; it waits only for one of three reasons, and then nothing changes. */
  lemma DecideMeaning(c: Config, h: Hub, f: Entry, busy: bool, submitting: bool)
    requires h.present == (h.held != [])
    ensures var d, r := Decide(c, h, busy, submitting), PresentLocked(c, h, f, busy, submitting);
            var room := |h.queue| < c.depthLimit;
            && (d.Promote? <==> !busy && room && h.held != [])
            && (d.Promote? ==> d.frame == h.held[0] && r.held == h.held[1..] && r.queue == h.queue)
            && (d.Direct? <==> room && h.held == [] && !submitting)
            && (d.Direct? ==> r.queue == h.queue + [f] && r.held == [])
            && (d.Wait? <==> !room || (h.held != [] && busy) || (h.held == [] && submitting))
            && (d.Wait? ==> r == h)
  {
  }

  /** Nothing is refused as stale. */
  ghost predicate RefusesNothing(h: Hub) {
    forall e: Entry :: !IsStale(h, e)
  }

  /** An arriving frame rolls back exactly if there is no origin or the frame lies before it. */
  lemma AdoptOriginMeaning(h: Hub, pts: real)
    ensures var r := AdoptOrigin(h, pts);
            if h.clock.origin < 0.0 || pts + 0.000001 < h.clock.origin then
              && r.queue == [] && r.gone == h.gone + h.queue && r.pushed == h.pushed
              && r.newest == -1.0 && RefusesNothing(r)
              && r.clock == Clock(pts, 0, false, h.clock.preserve)
              && r.held == (if pts < 0.0 then h.held else Prune(h.held, pts))
            else r == h
  {
  }

  /** What becomes of a frame the render thread submits. */
  lemma SubmitMeaning(c: Config, h: Hub, e: Entry)
    requires c.Valid()
    ensures var o, r := SubmitOutcome(c, h, e), SubmitLocked(c, h, e);
            var stale := !e.warmup && h.newest >= 0.0 && e.pts <= h.newest + 0.000001;
            var back := !e.warmup && (h.clock.origin < 0.0 || e.pts + 0.000001 < h.clock.origin);
            && (o.Stale? <==> stale)
            && (o.Deferred? <==> !stale && !back && |h.queue| >= c.depthLimit)
            && (stale ==> r == h.(drops := h.drops + 1, dropped := h.dropped + [e]))
            && (o.Deferred? ==> r == h.(clock := h.clock.(preserve := false)))
            && (o.Queued? ==>
                 && r.queue == (if back then [] else h.queue) + [e] && r.pushed == h.pushed + [e]
                 && r.clock == (if back then Rollback(h.clock, e.pts) else h.clock.(preserve := false))
                 && (back ==> r.newest == if e.pts > -1.0 then e.pts else -1.0)
                 && (!back && e.warmup ==> r.newest == h.newest)
                 && (!back && !e.warmup ==> r.newest == if h.newest < e.pts then e.pts else h.newest))
  {
  }
}
