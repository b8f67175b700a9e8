/** The order in which real frames reach the queue, over every interleaving of the two threads. */
module PipelineOrder {
  import opened FrameSpec
  import opened MediaClock
  import opened HandoffSpec
  import opened HandoffLaws
  import opened PipelineMachine
  import opened PipelineSafety

  // ---------------------------------------------------------------------------------------------
  // Orders on real frames; warm-up frames are passed over

  predicate Above(s: seq<Entry>, x: real) { forall e :: e in s && !e.warmup ==> x + EPS < e.pts }

  predicate Below(s: seq<Entry>, x: real) { forall e :: e in s && !e.warmup ==> e.pts + EPS < x }

  predicate AtMost(s: seq<Entry>, x: real) { forall e :: e in s && !e.warmup ==> 0.0 <= e.pts <= x }

  predicate From(s: seq<Entry>, origin: real) { forall e :: e in s && !e.warmup ==> origin <= e.pts + EPS }

  predicate NoReal(s: seq<Entry>) { forall e :: e in s ==> e.warmup }

  /** Time stamp of the last real frame of `s`, or -1. */
  function LastReal(s: seq<Entry>): real {
    if s == [] then -1.0
    else if s[|s| - 1].warmup then LastReal(s[..|s| - 1])
    else s[|s| - 1].pts
  }

  /** Every real frame is newer than the real frame before it. */
  predicate Ordered(s: seq<Entry>) {
    s == [] || (Ordered(s[..|s| - 1]) && (s[|s| - 1].warmup || LastReal(s[..|s| - 1]) + EPS < s[|s| - 1].pts))
  }

  lemma PushOrder(s: seq<Entry>, e: Entry)
    ensures LastReal(s + [e]) == if e.warmup then LastReal(s) else e.pts
    ensures Ordered(s + [e]) <==> Ordered(s) && (e.warmup || LastReal(s) + EPS < e.pts)
  {
    assert (s + [e])[..|s|] == s;
  }

  // ---------------------------------------------------------------------------------------------
  // The invariant.  `top` is the newest real frame that arrived.

  predicate HubOrder(h: Hub, top: real) {
    var last := LastReal(h.pushed);
    && Ordered(h.pushed)
    && (last == -1.0 || last >= 0.0) && last <= top
    && (last >= 0.0 ==> h.newest == last && 0.0 <= h.clock.origin <= last + EPS)
    && (last < 0.0 ==> h.newest <= 0.0)
    && (h.clock.origin < 0.0 || h.clock.origin <= top)
    && Above(h.held, last) && AtMost(h.held, top) && From(h.held, h.clock.origin)
  }

  /** `f` is the newest frame of all and nowhere else yet. */
  predicate New(h: Hub, f: Entry, top: real) {
    if f.warmup then top < 0.0
    else f.pts == top && Below(h.held, f.pts) && LastReal(h.pushed) + EPS < f.pts
  }

  predicate GapOrder(h: Hub, f: Entry, p: Entry, overtaken: bool) {
    var last := LastReal(h.pushed);
    if p.warmup then !overtaken && p.pts == 0.0
    else
      && !f.warmup && 0.0 <= p.pts && p.pts + EPS < f.pts
      && Above(h.held, p.pts)
      && 0.0 <= h.clock.origin <= p.pts + EPS
      && (if overtaken then p.pts + EPS < last else last + EPS < p.pts)
  }

  predicate PresOrder(h: Hub, pres: Presenter, top: real) {
    match pres
    case PEntered(f) => New(h, f, top) && (!f.warmup ==> h.clock.origin >= 0.0)
    case PSnap(f, _, _) => New(h, f, top) && (!f.warmup ==> h.clock.origin >= 0.0)
    case PGap(f, p, overtaken, _) => New(h, f, top) && GapOrder(h, f, p, overtaken)
    case PStore(f) => New(h, f, top)
    case PQueued(f) => f.warmup || (LastReal(h.pushed) == f.pts == top && f.pts >= 0.0 && NoReal(h.held))
    case _ => true
  }

  /** A frame in the render thread's hands is older than the frame the presenting thread works on, and
      it lies on the side of an open promotion that its claim says. */
  predicate Beside(pres: Presenter, e: Entry, late: bool) {
    && (late ==> pres.PGap?)
    && (match pres
        case PEntered(f) => f.warmup || e.pts + EPS < f.pts
        case PSnap(f, _, _) => f.warmup || e.pts + EPS < f.pts
        case PGap(f, p, _, _) =>
          && (f.warmup || e.pts + EPS < f.pts)
          && (p.warmup || if late then p.pts + EPS < e.pts else e.pts + EPS < p.pts)
        case PStore(f) => f.warmup || e.pts + EPS < f.pts
        case PQueued(f) => f.warmup || e.pts + EPS < f.pts
        case _ => true)
  }

  predicate RendOrder(c: Config, h: Hub, pres: Presenter, rend: Renderer, top: real) {
    match rend
    case RTook(e, late) =>
      (late ==> pres.PGap?) &&
      (e.warmup ||
       (&& 0.0 <= e.pts <= top && Above(h.held, e.pts) && Beside(pres, e, late)
        && (pres.PGap? && !late ==> |h.queue| < c.depthLimit && !pres.overtaken)))
    case RDefer(e, late) =>
      (late ==> pres.PGap?) &&
      (e.warmup ||
       (&& 0.0 <= e.pts <= top && Above(h.held, e.pts) && Beside(pres, e, late)
        && LastReal(h.pushed) + EPS < e.pts
        && 0.0 <= h.clock.origin <= e.pts + EPS
        && |h.queue| >= c.depthLimit
        && (pres.PGap? ==> late)))
    case RWarm(e) => e.warmup
    case _ => true
  }

  predicate Inv(c: Config, m: Machine) {
    var top := LastReal(m.arrivals);
    && Shape(c, m)
    && (top == -1.0 || top >= 0.0)
    && m.overtakes == 0
    && HubOrder(m.hub, top)
    && PresOrder(m.hub, m.pres, top)
    && RendOrder(c, m.hub, m.pres, m.rend, top)
  }

  /** The arrivals the theorem speaks about: warm-up frames come before the first real frame, and every
      real frame is newer than the previous one.  Resets and replays do not occur. */
  predicate Orderly(m: Machine, s: Step) {
    match s
    case Arrive(f) => m.pres.PIdle? && !f.warmup ==> Succeeds(m, f)
    case ArriveDirect(f) => m.pres.PIdle? ==> Succeeds(m, f)
    case Reset(_) => false
    case RenderSeed(_) => false
    case RenderKept(_) => false
    case RenderReplay(_, _) => false
    case EndOfSession => false
    case _ => true
  }

  predicate Succeeds(m: Machine, f: Entry) {
    var top := LastReal(m.arrivals);
    WellStamped(f) && (if f.warmup then top < 0.0 else top + EPS < f.pts)
  }

  // ---------------------------------------------------------------------------------------------
  // Presenting thread

  lemma ArriveOrder(c: Config, m: Machine, f: Entry)
    requires c.Valid() && Inv(c, m) && m.pres.PIdle? && !f.warmup && Succeeds(m, f)
    ensures var n := Present(c, m, Arrive(f));
            var top := LastReal(n.arrivals);
            && HubOrder(n.hub, top) && PresOrder(n.hub, n.pres, top) && RendOrder(c, n.hub, n.pres, n.rend, top)
            && (top == -1.0 || top >= 0.0)
  {
    PushOrder(m.arrivals, f);
  }

  lemma ArriveDirectOrder(c: Config, m: Machine, f: Entry)
    requires c.Valid() && Inv(c, m) && m.pres.PIdle? && Succeeds(m, f)
    ensures var n := Present(c, m, ArriveDirect(f));
            var top := LastReal(n.arrivals);
            && HubOrder(n.hub, top) && PresOrder(n.hub, n.pres, top) && RendOrder(c, n.hub, n.pres, n.rend, top)
            && (top == -1.0 || top >= 0.0)
  {
    PushOrder(m.arrivals, f);
    if !f.warmup && NeedsRollback(m.hub.clock, f.pts, EPS) {
      // only possible before anything real was queued; everything older is pruned
      assert LastReal(m.hub.pushed) < 0.0;
      PruneKeepsGood(m.hub.held, f.pts);
      assert NoReal(Prune(m.hub.held, f.pts));
    }
  }

  lemma HeldHead(h: Hub, top: real, c: Config)
    requires HubShape(c, h) && HubOrder(h, top) && h.held != [] && !h.held[0].warmup
    ensures Above(h.held[1..], h.held[0].pts)
    ensures forall e :: e in h.held[1..] ==> e in h.held
  {
    forall e | e in h.held[1..] && !e.warmup
      ensures h.held[0].pts + EPS < e.pts
    {
      var i :| 0 <= i < |h.held| - 1 && h.held[1..][i] == e;
      SpacedAt(h.held, 0, i + 1);
    }
  }

  lemma SubmitPromoteOrder(c: Config, m: Machine)
    requires c.Valid() && Inv(c, m) && m.pres.PSnap?
    requires Decide(c, m.hub, m.pres.busy, m.pres.submitting).Promote?
    ensures Inv(c, Present(c, m, Submit))
  {
    PresentShape(c, m, Submit);
    var p := m.hub.held[0];
    assert p in m.hub.held;
    if !p.warmup {
      HeldHead(m.hub, LastReal(m.arrivals), c);
    } else {
      assert m.hub.held[1..] == [];
    }
  }

  lemma SubmitDirectOrder(c: Config, m: Machine)
    requires c.Valid() && Inv(c, m) && m.pres.PSnap?
    requires Decide(c, m.hub, m.pres.busy, m.pres.submitting).Direct?
    ensures Inv(c, Present(c, m, Submit))
  {
    PresentShape(c, m, Submit);
    DirectHub(m.hub, m.pres.f, LastReal(m.arrivals));
    RendAfterDirect(c, m.hub, m.pres, m.rend, LastReal(m.arrivals));
  }

  lemma DirectHub(h: Hub, f: Entry, top: real)
    requires HubOrder(h, top) && New(h, f, top) && h.held == [] && WellStamped(f)
    requires !f.warmup ==> 0.0 <= h.clock.origin
    ensures var r := if f.warmup then h.Push(f) else h.Push(f).Raise(f.pts);
            HubOrder(r, top) && PresOrder(r, PQueued(f), top)
  {
    PushOrder(h.pushed, f);
  }

  lemma RendAfterDirect(c: Config, h: Hub, pres: Presenter, rend: Renderer, top: real)
    requires pres.PSnap? && RendOrder(c, h, pres, rend, top) && h.held == []
    requires Decide(c, h, pres.busy, pres.submitting).Direct?
    ensures RendOrder(c, PresentLocked(c, h, pres.f, pres.busy, pres.submitting), PQueued(pres.f), rend, top)
  {
  }

  lemma PromotionHub(h: Hub, f: Entry, p: Entry, overtaken: bool, top: real)
    requires HubOrder(h, top) && New(h, f, top) && GapOrder(h, f, p, overtaken)
    ensures var r := PushPromoted(h, p);
            if overtaken then !Ordered(r.pushed) else HubOrder(r, top) && New(r, f, top)
  {
    if overtaken {
      PushOrder(h.pushed, p);
    } else {
      PromotionInOrder(h, f, p, top);
    }
  }

  lemma PromotionInOrder(h: Hub, f: Entry, p: Entry, top: real)
    requires HubOrder(h, top) && New(h, f, top) && GapOrder(h, f, p, false)
    ensures var r := PushPromoted(h, p); HubOrder(r, top) && New(r, f, top)
  {
    PushOrder(h.pushed, p);
    var r := PushPromoted(h, p);
    assert r.pushed == h.pushed + [p] && r.held == h.held && r.clock == h.clock;
    assert r.newest == if h.newest < p.pts then p.pts else h.newest;
  }

  lemma RendAfterPromotion(c: Config, h: Hub, pres: Presenter, rend: Renderer, top: real)
    requires pres.PGap? && !pres.overtaken && RendOrder(c, h, pres, rend, top)
    requires GapOrder(h, pres.f, pres.p, false) && LastReal(h.pushed) <= top
    ensures RendOrder(c, PushPromoted(h, pres.p), PStore(pres.f), rend.Settled(), top)
  {
    PushOrder(h.pushed, pres.p);
  }

  lemma PushPromotionOrder(c: Config, m: Machine)
    requires c.Valid() && Inv(c, m) && m.pres.PGap?
    ensures var n := Present(c, m, PushPromotion);
            if m.pres.overtaken then !Ordered(n.hub.pushed) && n.overtakes > 0 else Inv(c, n)
  {
    PresentShape(c, m, PushPromotion);
    PromotionHub(m.hub, m.pres.f, m.pres.p, m.pres.overtaken, LastReal(m.arrivals));
    if !m.pres.overtaken {
      RendAfterPromotion(c, m.hub, m.pres, m.rend, LastReal(m.arrivals));
    }
  }

  lemma StoreOrder(c: Config, h: Hub, e: Entry, lock: bool, now: nat, top: real)
    requires HubShape(c, h) && HubOrder(h, top) && WellStamped(e)
    requires e.warmup || (LastReal(h.pushed) + EPS < e.pts <= top && h.clock.origin <= e.pts + EPS)
    ensures HubOrder(StoreHub(c, h, e, lock, now), top)
    ensures forall x :: x in StoreHub(c, h, e, lock, now).held ==> x in h.held || x == Stamp(h, e, lock, now)
  {
    StoreMembers(c.OverflowLimit(), h.held, Stamp(h, e, lock, now));
  }

  /** A stored arrival is newer than what the render thread holds. */
  lemma RendAfterStore(c: Config, h: Hub, r: Hub, rend: Renderer, f: Entry, top: real)
    requires RendOrder(c, h, PStore(f), rend, top)
    requires r.pushed == h.pushed && r.queue == h.queue && r.clock == h.clock
    requires forall x :: x in r.held ==> x in h.held || (x.pts == f.pts && x.warmup == f.warmup)
    ensures RendOrder(c, r, PIdle, rend, top)
  {
  }

  lemma ArrivalStored(c: Config, m: Machine, r: Hub)
    requires Inv(c, m) && m.pres.PStore? && HubOrder(r, LastReal(m.arrivals))
    requires r.pushed == m.hub.pushed && r.queue == m.hub.queue && r.clock == m.hub.clock
    requires forall x :: x in r.held ==> x in m.hub.held || (x.pts == m.pres.f.pts && x.warmup == m.pres.f.warmup)
    requires Shape(c, m.(hub := r, pres := PIdle))
    ensures Inv(c, m.(hub := r, pres := PIdle))
  {
    RendAfterStore(c, m.hub, r, m.rend, m.pres.f, LastReal(m.arrivals));
  }

  lemma StoreArrivalHub(c: Config, m: Machine, lock: bool, now: nat) returns (r: Hub)
    requires c.Valid() && Inv(c, m) && m.pres.PStore?
    ensures Present(c, m, StoreArrival(lock, now)) == m.(hub := r, pres := PIdle)
    ensures HubOrder(r, LastReal(m.arrivals))
    ensures r.pushed == m.hub.pushed && r.queue == m.hub.queue && r.clock == m.hub.clock
    ensures forall x :: x in r.held ==> x in m.hub.held || (x.pts == m.pres.f.pts && x.warmup == m.pres.f.warmup)
  {
    r := StoreHub(c, m.hub, m.pres.f, lock, now);
    StoreOrder(c, m.hub, m.pres.f, lock, now, LastReal(m.arrivals));
  }

  lemma StoreArrivalOrder(c: Config, m: Machine, lock: bool, now: nat)
    requires c.Valid() && Inv(c, m) && m.pres.PStore?
    ensures Inv(c, Present(c, m, StoreArrival(lock, now)))
  {
    var r := StoreArrivalHub(c, m, lock, now);
    PresentShape(c, m, StoreArrival(lock, now));
    ArrivalStored(c, m, r);
  }

  lemma CleanUpOrder(c: Config, m: Machine)
    requires c.Valid() && Inv(c, m) && m.pres.PQueued?
    ensures Inv(c, Present(c, m, CleanUp))
  {
    PresentShape(c, m, CleanUp);
    CutUpToGood(m.hub.held, m.pres.f.pts);
  }

  lemma SubmitOrder(c: Config, m: Machine)
    requires c.Valid() && Inv(c, m) && m.pres.PSnap?
    ensures Inv(c, Present(c, m, Submit))
  {
    match Decide(c, m.hub, m.pres.busy, m.pres.submitting)
    case Promote(_) => SubmitPromoteOrder(c, m);
    case Direct => SubmitDirectOrder(c, m);
    case Wait => PresentShape(c, m, Submit);
  }

  lemma ArrivalOrder(c: Config, m: Machine, s: Step)
    requires c.Valid() && Inv(c, m) && Orderly(m, s) && m.pres.PIdle? && (s.Arrive? || s.ArriveDirect?)
    ensures Inv(c, Present(c, m, s))
  {
    if s.Arrive? && !s.f.warmup {
      PresentShape(c, m, s);
      ArriveOrder(c, m, s.f);
    } else if s.ArriveDirect? {
      PresentShape(c, m, s);
      ArriveDirectOrder(c, m, s.f);
    }
  }

  lemma QuietArrivalOrder(c: Config, m: Machine, s: Step)
    requires c.Valid() && Inv(c, m) && ((s.Snapshot? && m.pres.PEntered?) || (s.StartPlayback? && m.pres.PStart?))
    ensures Inv(c, Present(c, m, s))
  {
    PresentShape(c, m, s);
  }

  lemma PresentOrder(c: Config, m: Machine, s: Step)
    requires c.Valid() && Inv(c, m) && Orderly(m, s)
    ensures var n := Present(c, m, s);
            Inv(c, n) || (!Ordered(n.hub.pushed) && n.overtakes > 0)
  {
    match (s, m.pres)
    case (Arrive(_), PIdle) =>
      ArrivalOrder(c, m, s);
    case (ArriveDirect(_), PIdle) =>
      ArrivalOrder(c, m, s);
    case (Submit, PSnap(_, _, _)) =>
      SubmitOrder(c, m);
    case (PushPromotion, PGap(_, _, _, _)) =>
      PushPromotionOrder(c, m);
    case (StoreArrival(lock, now), PStore(f)) =>
      StoreArrivalOrder(c, m, lock, now);
    case (CleanUp, PQueued(f)) =>
      CleanUpOrder(c, m);
    case (Snapshot(_), PEntered(_)) =>
      QuietArrivalOrder(c, m, s);
    case (StartPlayback(_), PStart(_)) =>
      QuietArrivalOrder(c, m, s);
    case _ =>
  }

  // ---------------------------------------------------------------------------------------------
  // Render thread

  lemma ClaimOrder(c: Config, m: Machine)
    requires c.Valid() && Inv(c, m) && m.rend.RIdle?
    ensures Inv(c, Render(c, m, RenderClaim))
  {
    RenderShape(c, m, RenderClaim);
    if m.hub.held != [] {
      ClaimParts(c, m.hub, m.pres, LastReal(m.arrivals));
    }
  }

  lemma ClaimParts(c: Config, h: Hub, pres: Presenter, top: real)
    requires HubShape(c, h) && h.held != [] && HubOrder(h, top) && PresOrder(h, pres, top)
    requires pres.PGap? ==> |h.queue| <= c.depthLimit
    ensures var r := Claim(h);
            HubOrder(r, top) && PresOrder(r, pres, top) && RendOrder(c, r, pres, RTook(h.held[0], pres.PGap?), top)
  {
    assert h.held[0] in h.held;
    if !h.held[0].warmup {
      HeldHead(h, top, c);
    } else {
      assert h.held[1..] == [];
    }
  }

  /** The roll-back inside a submission can only happen before anything real was queued. */
  lemma SubmitOriginOrder(c: Config, h: Hub, e: Entry, top: real)
    requires HubShape(c, h) && HubOrder(h, top) && WellStamped(e) && !IsStale(h, e)
    requires e.warmup || (e.pts <= top && Above(h.held, e.pts))
    ensures var r := SubmitOrigin(h, e);
            && HubOrder(r, top)
            && r.pushed == h.pushed
            && (!e.warmup ==> LastReal(h.pushed) + EPS < e.pts && 0.0 <= r.clock.origin <= e.pts + EPS)
            && (forall x :: x in r.held ==> x in h.held)
            && |r.queue| <= |h.queue|
            && (r.clock.origin == h.clock.origin || (!e.warmup && NeedsRollback(h.clock, e.pts, EPS) && r.clock.origin == e.pts))
  {
    if !e.warmup && NeedsRollback(h.clock, e.pts, EPS) {
      PruneKeepsGood(h.held, e.pts);
      PruneMembers(h.held, e.pts);
    }
  }

  lemma SubmitStaleOrder(c: Config, m: Machine)
    requires c.Valid() && Inv(c, m) && m.rend.RTook? && SubmitOutcome(c, m.hub, m.rend.e).Stale?
    ensures Inv(c, Render(c, m, RenderSubmit))
  {
    RenderShape(c, m, RenderSubmit);
  }

  lemma SubmitDeferredOrder(c: Config, m: Machine)
    requires c.Valid() && Inv(c, m) && m.rend.RTook? && SubmitOutcome(c, m.hub, m.rend.e).Deferred?
    ensures Inv(c, Render(c, m, RenderSubmit))
  {
    RenderShape(c, m, RenderSubmit);
    SubmitOriginOrder(c, m.hub, m.rend.e, LastReal(m.arrivals));
  }

  lemma SubmitQueuedOrder(c: Config, m: Machine)
    requires c.Valid() && Inv(c, m) && m.rend.RTook? && SubmitOutcome(c, m.hub, m.rend.e).Queued?
    ensures Inv(c, Render(c, m, RenderSubmit))
  {
    RenderShape(c, m, RenderSubmit);
    var top := LastReal(m.arrivals);
    QueuedHub(c, m.hub, m.rend.e, top);
    QueuedPres(c, m.hub, m.pres, m.rend.e, m.rend.late, top);
  }

  lemma QueuedHub(c: Config, h: Hub, e: Entry, top: real)
    requires HubShape(c, h) && HubOrder(h, top) && WellStamped(e) && SubmitOutcome(c, h, e).Queued?
    requires e.warmup || (e.pts <= top && Above(h.held, e.pts))
    ensures var r := SubmitLocked(c, h, e);
            && HubOrder(r, top)
            && LastReal(r.pushed) == (if e.warmup then LastReal(h.pushed) else e.pts)
            && (!e.warmup ==> LastReal(h.pushed) + EPS < e.pts && 0.0 <= r.clock.origin)
            && (forall x :: x in r.held ==> x in h.held)
            && (r.clock.origin == h.clock.origin || (!e.warmup && NeedsRollback(h.clock, e.pts, EPS) && r.clock.origin == e.pts))
  {
    SubmitOriginOrder(c, h, e, top);
    PushOrder(h.pushed, e);
  }

  lemma QueuedPres(c: Config, h: Hub, pres: Presenter, e: Entry, late: bool, top: real)
    requires HubShape(c, h) && HubOrder(h, top) && WellStamped(e) && SubmitOutcome(c, h, e).Queued?
    requires PresOrder(h, pres, top) && RendOrder(c, h, pres, RTook(e, late), top)
    ensures PresOrder(SubmitLocked(c, h, e), Crowd(Overtake(pres, e, late)), top)
  {
    QueuedHub(c, h, e, top);
  }

  lemma RenderStoreOrder(c: Config, m: Machine, lock: bool, now: nat)
    requires c.Valid() && Inv(c, m) && (m.rend.RDefer? || m.rend.RWarm?)
    ensures Inv(c, Render(c, m, RenderStore(lock, now)))
  {
    RenderShape(c, m, RenderStore(lock, now));
    var top := LastReal(m.arrivals);
    StoreOrder(c, m.hub, m.rend.e, lock, now, top);
    StorePres(c, m.hub, m.pres, m.rend, lock, now, top);
  }

  lemma StorePres(c: Config, h: Hub, pres: Presenter, rend: Renderer, lock: bool, now: nat, top: real)
    requires rend.RDefer? || rend.RWarm?
    requires PresOrder(h, pres, top) && RendOrder(c, h, pres, rend, top)
    ensures PresOrder(StoreHub(c, h, rend.e, lock, now), pres, top)
  {
    StoreMembers(c.OverflowLimit(), h.held, Stamp(h, rend.e, lock, now));
  }

  lemma RenderSubmitOrder(c: Config, m: Machine)
    requires c.Valid() && Inv(c, m) && m.rend.RTook?
    ensures Inv(c, Render(c, m, RenderSubmit))
  {
    match SubmitOutcome(c, m.hub, m.rend.e)
    case Stale => SubmitStaleOrder(c, m);
    case Deferred => SubmitDeferredOrder(c, m);
    case Queued => SubmitQueuedOrder(c, m);
  }

  lemma QuietOrder(c: Config, m: Machine, s: Step)
    requires c.Valid() && Inv(c, m)
    requires (s.RenderClock? && m.rend.RClock?) || (s.RenderFinish? && m.rend.RDone?) || (s.RenderUpdate? && m.rend.RIdle?)
    ensures Inv(c, Render(c, m, s))
  {
    RenderShape(c, m, s);
  }

  lemma RenderOrder(c: Config, m: Machine, s: Step)
    requires c.Valid() && Inv(c, m)
    ensures Inv(c, Render(c, m, s))
  {
    match (s, m.rend)
    case (RenderClaim, RIdle) => ClaimOrder(c, m);
    case (RenderSubmit, RTook(e, late)) =>
      RenderSubmitOrder(c, m);
    case (RenderStore(lock, now), RDefer(e, _)) => RenderStoreOrder(c, m, lock, now);
    case (RenderStore(lock, now), RWarm(e)) => RenderStoreOrder(c, m, lock, now);
    case (RenderClock(_), RClock(_, _)) => QuietOrder(c, m, s);
    case (RenderFinish, RDone) => QuietOrder(c, m, s);
    case (RenderUpdate(_), RIdle) => QuietOrder(c, m, s);
    case _ =>
  }
}
