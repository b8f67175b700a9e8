/** What holds in every run, resets, replays and session changes included: the shape of the pending
    store, the bound on the queue, the drop counter, and the conservation of frames. */
module PipelineSafety {
  import opened FrameSpec
  import opened MediaClock
  import opened HandoffSpec
  import opened HandoffLaws
  import opened PipelineMachine

  // ---------------------------------------------------------------------------------------------
  // Shape and bounds

  predicate Depth(c: Config, m: Machine) {
    && |m.hub.queue| <= c.depthLimit + 1
    && (m.crowds == 0 ==> |m.hub.queue| <= c.depthLimit)
    && (m.pres.PGap? ==> |m.hub.queue| <= c.depthLimit && (!m.pres.crowded ==> |m.hub.queue| < c.depthLimit))
  }

  predicate InHandStamped(m: Machine) {
    && (m.pres.PEntered? || m.pres.PSnap? || m.pres.PGap? || m.pres.PStore? ==> WellStamped(m.pres.f))
    && (m.rend.RTook? || m.rend.RDefer? || m.rend.RWarm? ==> WellStamped(m.rend.e))
  }

  predicate Shape(c: Config, m: Machine) {
    HubShape(c, m.hub) && Depth(c, m) && InHandStamped(m)
  }

  lemma PresentShape(c: Config, m: Machine, s: Step)
    requires c.Valid() && Shape(c, m) && forall e :: e in Incoming(s) ==> WellStamped(e)
    ensures Shape(c, Present(c, m, s))
  {
    match (s, m.pres)
    case (ArriveDirect(f), PIdle) =>
      assert f in Incoming(s);
      if !f.warmup && NeedsRollback(m.hub.clock, f.pts, EPS) {
        PruneShape(c, m.hub.Emptied().(newest := NOTHING_QUEUED, clock := Clock(f.pts, 0, false, m.hub.clock.preserve)), f.pts);
      }
    case (Arrive(f), PIdle) =>
      assert f in Incoming(s);
    case (Submit, PSnap(f, busy, submitting)) =>
      if m.hub.held != [] {
        TakeShape(c, m.hub);
      }
    case (StoreArrival(lock, now), PStore(f)) =>
      StoreShape(c, m.hub, f, lock, now);
    case (CleanUp, PQueued(f)) =>
      DropStaleShape(c, m.hub, f.pts);
    case _ =>
  }

  lemma RenderSubmitShape(c: Config, m: Machine)
    requires c.Valid() && Shape(c, m) && m.rend.RTook?
    ensures Shape(c, Render(c, m, RenderSubmit))
  {
    SubmitShape(c, m.hub, m.rend.e);
  }

  lemma RenderShape(c: Config, m: Machine, s: Step)
    requires c.Valid() && Shape(c, m)
    ensures Shape(c, Render(c, m, s))
  {
    match (s, m.rend)
    case (RenderClaim, RIdle) =>
      if m.hub.held != [] {
        TakeShape(c, m.hub);
      }
    case (RenderSubmit, RTook(e, late)) =>
      RenderSubmitShape(c, m);
    case (RenderStore(lock, now), RDefer(e, _)) =>
      StoreShape(c, m.hub, e, lock, now);
    case (RenderStore(lock, now), RWarm(e)) =>
      StoreShape(c, m.hub, e, lock, now);
    case _ =>
  }

  lemma DisturbShape(c: Config, m: Machine, s: Step)
    requires c.Valid() && Shape(c, m) && forall e :: e in Incoming(s) ==> WellStamped(e)
    ensures Shape(c, Disturb(c, m, s))
  {
    match s
    case RenderSeed(e) =>
      assert e in Incoming(s);
      PruneShape(c, m.hub, e.pts);
    case RenderKept(e) =>
      assert e in Incoming(s);
    case _ =>
  }

  /** In every reachable state: the queue exceeds its depth limit by at most one frame, and only after
      a promoted frame was pushed into room another push had used; at most two frames wait behind the
      primary one; the store is sorted, no warm-up frame waits behind another frame; the presence flag
      is exact; and the drop counter counts the dropped frames. */
  lemma {:induction false} BoundsInEveryRun(c: Config, steps: seq<Step>)
    requires c.Valid() && WellStampedSteps(steps)
    ensures Shape(c, Run(c, steps))
  {
    if steps != [] {
      var init, s := steps[..|steps| - 1], steps[|steps| - 1];
      BoundsInEveryRun(c, init);
      assert forall e :: e in Incoming(s) ==> WellStamped(e);
      PresentShape(c, Run(c, init), s);
      RenderShape(c, Run(c, init), s);
      DisturbShape(c, Run(c, init), s);
    }
  }

  lemma RenderGrowth(c: Config, m: Machine, s: Step)
    requires c.Valid() && |m.hub.queue| <= c.depthLimit
    ensures |Render(c, m, s).hub.queue| <= c.depthLimit
  {
  }

  /** The step that takes the queue over its limit is always the push of a promoted frame into a queue that
      was filled up since the promotion was decided. */
  lemma LimitIsExceededExactlyAt(c: Config, m: Machine, s: Step)
    requires c.Valid() && |m.hub.queue| <= c.depthLimit
    ensures |Next(c, m, s).hub.queue| > c.depthLimit <==>
              s.PushPromotion? && m.pres.PGap? && |m.hub.queue| == c.depthLimit
  {
    RenderGrowth(c, m, s);
  }

  /** The same in the source's terms: behind the primary slot there are at most two overflow entries,
      none of them a warm-up frame, each newer than the one before. */
  lemma OverflowInEveryRun(c: Config, steps: seq<Step>, i: nat, j: nat)
    requires c.Valid() && WellStampedSteps(steps)
    requires i < j < |Run(c, steps).hub.held|
    ensures var held := Run(c, steps).hub.held;
            && |held[1..]| <= OVERFLOW_LIMIT
            && c.overflowEnabled
            && !held[i].warmup && !held[j].warmup
            && held[i].pts + EPS < held[j].pts
  {
    BoundsInEveryRun(c, steps);
    var held := Run(c, steps).hub.held;
    SpacedAt(held, i, j);
    RealAt(held, i);
    RealAt(held, j);
  }

  // ---------------------------------------------------------------------------------------------
  // Conservation

  /** How often a thread holds the AVFrame `id` in a local variable. */
  function HandCount(m: Machine, id: nat): nat {
    Count(PresHand(m.pres), id) + Count(RendHand(m.rend), id)
  }

  predicate Balanced(m: Machine, id: nat) {
    Count(m.arrivals, id) + Count(m.copies, id) == HubCount(m.hub, id) + HandCount(m, id)
  }

  lemma PresentSubmitBalanced(c: Config, m: Machine, id: nat)
    requires Balanced(m, id) && m.pres.PSnap?
    ensures Balanced(Present(c, m, Submit), id)
  {
    PresentLockedCount(c, m.hub, m.pres.f, m.pres.busy, m.pres.submitting, id);
    match Decide(c, m.hub, m.pres.busy, m.pres.submitting)
    case Promote(p) =>
      assert [m.pres.f, p] == [m.pres.f] + [p];
      CountAppend([m.pres.f], [p], id);
    case _ =>
  }

  lemma ArriveBalanced(c: Config, m: Machine, f: Entry, id: nat)
    requires Balanced(m, id) && m.pres.PIdle?
    ensures Balanced(Present(c, m, Arrive(f)), id)
    ensures Balanced(Present(c, m, ArriveDirect(f)), id)
  {
    CountAppend(m.arrivals, [f], id);
    assert forall h :: Count([Positioned(h, f)], id) == Count([f], id);
    if !f.warmup && NeedsRollback(m.hub.clock, f.pts, EPS) {
      EmptiedCount(m.hub, id);
      PruneCount(m.hub.Emptied().(newest := NOTHING_QUEUED, clock := Clock(f.pts, 0, false, m.hub.clock.preserve)), f.pts, id);
    }
  }

  lemma PushPromotionBalanced(c: Config, m: Machine, id: nat)
    requires Balanced(m, id) && m.pres.PGap?
    ensures Balanced(Present(c, m, PushPromotion), id)
  {
    PushCount(m.hub, m.pres.p, id);
    assert RendHand(m.rend.Settled()) == RendHand(m.rend);
  }

  lemma StoreArrivalBalanced(c: Config, m: Machine, lock: bool, now: nat, id: nat)
    requires Balanced(m, id) && m.pres.PStore?
    ensures Balanced(Present(c, m, StoreArrival(lock, now)), id)
  {
    StoreCount(c, m.hub, m.pres.f, lock, now, id);
    assert Present(c, m, StoreArrival(lock, now)) == m.(hub := StoreHub(c, m.hub, m.pres.f, lock, now), pres := PIdle);
  }

  lemma CleanUpBalanced(c: Config, m: Machine, id: nat)
    requires Balanced(m, id) && m.pres.PQueued?
    ensures Balanced(Present(c, m, CleanUp), id)
  {
    DropStaleCount(m.hub, m.pres.f.pts, id);
  }

  lemma PresentBalanced(c: Config, m: Machine, s: Step, id: nat)
    requires Balanced(m, id)
    ensures Balanced(Present(c, m, s), id)
  {
    match (s, m.pres)
    case (Arrive(f), PIdle) => ArriveBalanced(c, m, f, id);
    case (ArriveDirect(f), PIdle) => ArriveBalanced(c, m, f, id);
    case (Submit, PSnap(_, _, _)) => PresentSubmitBalanced(c, m, id);
    case (PushPromotion, PGap(_, _, _, _)) => PushPromotionBalanced(c, m, id);
    case (StoreArrival(lock, now), PStore(_)) => StoreArrivalBalanced(c, m, lock, now, id);
    case (CleanUp, PQueued(_)) => CleanUpBalanced(c, m, id);
    case _ =>
  }

  lemma RenderSubmitBalanced(c: Config, m: Machine, id: nat)
    requires Balanced(m, id) && m.rend.RTook?
    ensures Balanced(Render(c, m, RenderSubmit), id)
  {
    SubmitCount(c, m.hub, m.rend.e, id);
    match SubmitOutcome(c, m.hub, m.rend.e)
    case Queued => QueuedBalanced(c, m, id);
    case _ =>
  }

  lemma QueuedBalanced(c: Config, m: Machine, id: nat)
    requires Balanced(m, id) && m.rend.RTook? && SubmitOutcome(c, m.hub, m.rend.e).Queued?
    requires HubCount(SubmitLocked(c, m.hub, m.rend.e), id) == HubCount(m.hub, id) + Count([m.rend.e], id)
    ensures Balanced(Render(c, m, RenderSubmit), id)
  {
    CountAppend(m.copies, [m.rend.e], id);
    assert PresHand(Crowd(Overtake(m.pres, m.rend.e, m.rend.late))) == PresHand(m.pres);
  }

  lemma RenderStoreBalanced(c: Config, m: Machine, lock: bool, now: nat, id: nat)
    requires Balanced(m, id) && (m.rend.RDefer? || m.rend.RWarm?)
    ensures Balanced(Render(c, m, RenderStore(lock, now)), id)
  {
    StoreCount(c, m.hub, m.rend.e, lock, now, id);
    assert Render(c, m, RenderStore(lock, now)) == m.(hub := StoreHub(c, m.hub, m.rend.e, lock, now), rend := RDone);
  }

  lemma RenderClaimBalanced(c: Config, m: Machine, id: nat)
    requires Balanced(m, id) && m.rend.RIdle?
    ensures Balanced(Render(c, m, RenderClaim), id)
  {
    if m.hub.held != [] {
      TakeCount(m.hub, id);
    }
  }

  lemma RenderBalanced(c: Config, m: Machine, s: Step, id: nat)
    requires Balanced(m, id)
    ensures Balanced(Render(c, m, s), id)
  {
    match (s, m.rend)
    case (RenderClaim, RIdle) => RenderClaimBalanced(c, m, id);
    case (RenderSubmit, RTook(_, _)) => RenderSubmitBalanced(c, m, id);
    case (RenderStore(lock, now), RDefer(_, _)) => RenderStoreBalanced(c, m, lock, now, id);
    case (RenderStore(lock, now), RWarm(_)) => RenderStoreBalanced(c, m, lock, now, id);
    case (RenderUpdate(n), RIdle) => UpdateCount(m.hub, n, id);
    case _ =>
  }

  lemma DisturbBalanced(c: Config, m: Machine, s: Step, id: nat)
    requires Balanced(m, id)
    ensures Balanced(Disturb(c, m, s), id)
  {
    match s
    case Reset(preserve) =>
      EmptiedCount(m.hub, id);
    case RenderSeed(e) =>
      CountAppend(m.arrivals, [e], id);
      PruneCount(m.hub, e.pts, id);
    case RenderKept(e) =>
      CountAppend(m.arrivals, [e], id);
    case RenderReplay(e, now) =>
      CountAppend(m.arrivals, [e], id);
      PushCount(m.hub, e, id);
    case EndOfSession =>
      EndSessionCount(m.hub, id);
    case _ =>
  }

  /** In every run, with any frames at all, every frame handed in is in exactly as many places as it
      was handed in; `copies` adds the second life of a warm-up frame. */
  lemma {:induction false} Conservation(c: Config, steps: seq<Step>, id: nat)
    ensures Balanced(Run(c, steps), id)
  {
    if steps != [] {
      var init, s := steps[..|steps| - 1], steps[|steps| - 1];
      Conservation(c, init, id);
      PresentBalanced(c, Run(c, init), s, id);
      RenderBalanced(c, Run(c, init), s, id);
      DisturbBalanced(c, Run(c, init), s, id);
    }
  }

  lemma {:induction false} CountIn(s: seq<Entry>, id: nat)
    ensures Count(s, id) > 0 <==> exists e :: e in s && e.frame == id
  {
    if s != [] {
      CountIn(s[1..], id);
      assert forall e :: e in s <==> e == s[0] || e in s[1..];
    }
  }

  /** No entry of `s` passes the AVFrame `id` off as a warm-up frame. */
  predicate NotWarmup(s: seq<Entry>, id: nat) {
    forall e :: e in s && e.frame == id ==> !e.warmup
  }

  predicate RealEverywhere(m: Machine, id: nat) {
    NotWarmup(m.arrivals, id) ==>
      && NotWarmup(m.hub.held, id)
      && NotWarmup(PresHand(m.pres), id)
      && NotWarmup(RendHand(m.rend), id)
      && (forall e :: e in m.copies ==> e.frame != id)
  }

  lemma SubmitMembers(c: Config, h: Hub, e: Entry)
    ensures forall x :: x in SubmitLocked(c, h, e).held ==> x in h.held
  {
    PruneMembers(h.held, e.pts);
  }

  lemma PresentKeepsRealFrames(c: Config, m: Machine, s: Step, id: nat)
    requires RealEverywhere(m, id)
    ensures RealEverywhere(Present(c, m, s), id)
  {
    match (s, m.pres)
    case (ArriveDirect(f), PIdle) =>
      assert f in m.arrivals + [f];
      assert forall e :: e in m.arrivals ==> e in m.arrivals + [f];
      PruneMembers(m.hub.held, f.pts);
    case (Arrive(f), PIdle) =>
      assert f in m.arrivals + [f];
      assert forall e :: e in m.arrivals ==> e in m.arrivals + [f];
    case (StoreArrival(lock, now), PStore(f)) =>
      StoreMembers(c.OverflowLimit(), m.hub.held, Stamp(m.hub, f, lock, now));
    case _ =>
  }

  lemma RenderKeepsRealFrames(c: Config, m: Machine, s: Step, id: nat)
    requires RealEverywhere(m, id)
    ensures RealEverywhere(Render(c, m, s), id)
  {
    match (s, m.rend)
    case (RenderStore(lock, now), RDefer(e, _)) =>
      StoreMembers(c.OverflowLimit(), m.hub.held, Stamp(m.hub, e, lock, now));
    case (RenderStore(lock, now), RWarm(e)) =>
      StoreMembers(c.OverflowLimit(), m.hub.held, Stamp(m.hub, e, lock, now));
    case (RenderSubmit, RTook(e, _)) =>
      SubmitMembers(c, m.hub, e);
      assert e in [e];
    case _ =>
  }

  lemma DisturbKeepsRealFrames(c: Config, m: Machine, s: Step, id: nat)
    requires RealEverywhere(m, id)
    ensures RealEverywhere(Disturb(c, m, s), id)
  {
    if Incoming(s) != [] {
      var e := Incoming(s)[0];
      assert e in m.arrivals + [e];
      assert forall x :: x in m.arrivals ==> x in m.arrivals + [e];
      PruneMembers(m.hub.held, e.pts);
    }
  }

  lemma {:induction false} RealFramesAreNeverCopied(c: Config, steps: seq<Step>, id: nat)
    ensures RealEverywhere(Run(c, steps), id)
  {
    if steps != [] {
      RealFramesAreNeverCopied(c, steps[..|steps| - 1], id);
      var m, s := Run(c, steps[..|steps| - 1]), steps[|steps| - 1];
      PresentKeepsRealFrames(c, m, s, id);
      RenderKeepsRealFrames(c, m, s, id);
      DisturbKeepsRealFrames(c, m, s, id);
    }
  }

  /** A frame gets a second owner at one kind of step only: the render thread queues a warm-up frame. */
  lemma CopiesGrowExactlyAt(c: Config, m: Machine, s: Step)
    ensures Next(c, m, s).copies == m.copies +
            if s.RenderSubmit? && m.rend.RTook? && m.rend.e.warmup && |m.hub.queue| < c.depthLimit then [m.rend.e] else []
  {
    assert m.copies + [] == m.copies;
  }

  /** A frame handed in once is in exactly one place if and only if it never got a second owner. */
  lemma FrameInOnePlace(c: Config, steps: seq<Step>, id: nat)
    requires Count(Run(c, steps).arrivals, id) == 1
    ensures HubCount(Run(c, steps).hub, id) + HandCount(Run(c, steps), id) == 1 <==> Count(Run(c, steps).copies, id) == 0
  {
    Conservation(c, steps, id);
  }

  /** A frame handed in once, and not as a warm-up frame, is in exactly one place: queued, shown or
      discarded by the queue, held, dropped and counted, freed silently, or in the hands of one thread.
      So no such frame is freed twice, or freed while it is held. */
  lemma RealFrameInOnePlace(c: Config, steps: seq<Step>, id: nat)
    requires Count(Run(c, steps).arrivals, id) == 1 && NotWarmup(Run(c, steps).arrivals, id)
    ensures HubCount(Run(c, steps).hub, id) + HandCount(Run(c, steps), id) == 1
  {
    FrameInOnePlace(c, steps, id);
    RealFramesAreNeverCopied(c, steps, id);
    CountIn(Run(c, steps).copies, id);
  }
}
