/** When frames are queued in order, in terms of the schedule alone: which steps follow which. */
module PipelineSchedule {
  import opened FrameSpec
  import opened MediaClock
  import opened HandoffSpec
  import opened HandoffLaws
  import opened PipelineMachine
  import opened PipelineSafety
  import opened PipelineOrder

  /** Real frames arrive in order, warm-up frames before them, and nothing is reset or replayed. */
  predicate OrderlyRun(c: Config, steps: seq<Step>) {
    steps == [] ||
    (OrderlyRun(c, steps[..|steps| - 1]) && Orderly(Run(c, steps[..|steps| - 1]), steps[|steps| - 1]))
  }

  lemma PresentPushed(c: Config, m: Machine, s: Step)
    ensures var n := Present(c, m, s);
            && m.hub.pushed <= n.hub.pushed && |n.hub.pushed| <= |m.hub.pushed| + 1 && n.overtakes >= m.overtakes
  {
  }

  lemma RenderPushed(c: Config, m: Machine, s: Step)
    ensures var n := Render(c, m, s);
            && m.hub.pushed <= n.hub.pushed && |n.hub.pushed| <= |m.hub.pushed| + 1 && n.overtakes >= m.overtakes
  {
  }

  lemma PushedGrows(c: Config, m: Machine, s: Step)
    requires Orderly(m, s)
    ensures m.hub.pushed <= Next(c, m, s).hub.pushed && |Next(c, m, s).hub.pushed| <= |m.hub.pushed| + 1
    ensures Next(c, m, s).overtakes >= m.overtakes
  {
    PresentPushed(c, m, s);
    RenderPushed(c, m, s);
  }

  lemma DisorderStays(s: seq<Entry>, t: seq<Entry>)
    requires !Ordered(s) && s <= t && |t| <= |s| + 1
    ensures !Ordered(t)
  {
    if |t| == |s| {
      assert t == s;
    } else {
      assert t[..|t| - 1] == s;
    }
  }

  lemma {:induction false} RunOrder(c: Config, steps: seq<Step>)
    requires c.Valid() && OrderlyRun(c, steps)
    ensures Inv(c, Run(c, steps)) || (!Ordered(Run(c, steps).hub.pushed) && Run(c, steps).overtakes > 0)
  {
    if steps != [] {
      var m, s := Run(c, steps[..|steps| - 1]), steps[|steps| - 1];
      RunOrder(c, steps[..|steps| - 1]);
      if Inv(c, m) {
        PresentOrder(c, m, s);
        RenderOrder(c, m, s);
      } else {
        PushedGrows(c, m, s);
        DisorderStays(m.hub.pushed, Run(c, steps).hub.pushed);
      }
    }
  }

  // ---------------------------------------------------------------------------------------------
  // The steps that matter

  /** The presenting thread takes a real frame out of the store to promote it. */
  predicate Opens(c: Config, m: Machine, s: Step) {
    && s.Submit? && m.pres.PSnap?
    && var d := Decide(c, m.hub, m.pres.busy, m.pres.submitting);
       d.Promote? && !d.frame.warmup
  }

  /** It pushes the frame it promotes. */
  predicate Closes(m: Machine, s: Step) {
    s.PushPromotion? && m.pres.PGap?
  }

  /** The render thread takes a real frame out of the store. */
  predicate Claims(m: Machine, s: Step) {
    s.RenderClaim? && m.rend.RIdle? && m.hub.held != [] && !m.hub.held[0].warmup
  }

  /** It submits the frame it took, with any outcome. */
  predicate Submits(m: Machine, s: Step) {
    s.RenderSubmit? && m.rend.RTook?
  }

  /** It submits a real frame, which gets queued. */
  predicate Queues(c: Config, m: Machine, s: Step) {
    Submits(m, s) && !m.rend.e.warmup && SubmitOutcome(c, m.hub, m.rend.e).Queued?
  }

  /** Position of the step that took the real frame whose promotion is open after n steps; -1 if none is. */
  function OpenAt(c: Config, steps: seq<Step>, n: nat): (i: int)
    requires n <= |steps|
    ensures -1 <= i < n
  {
    if n == 0 then -1
    else
      var m, s := Run(c, steps[..n - 1]), steps[n - 1];
      if Closes(m, s) then -1 else if Opens(c, m, s) then n - 1 else OpenAt(c, steps, n - 1)
  }

  /** Position of the step that took the real frame the render thread is about to submit; -1 if there is none. */
  function ClaimedAt(c: Config, steps: seq<Step>, n: nat): (i: int)
    requires n <= |steps|
    ensures -1 <= i < n
  {
    if n == 0 then -1
    else
      var m, s := Run(c, steps[..n - 1]), steps[n - 1];
      if Claims(m, s) then n - 1 else if Submits(m, s) then -1 else ClaimedAt(c, steps, n - 1)
  }

  /** At step l a frame is queued that left the store while the promotion still open after n steps was open. */
  predicate Passes(c: Config, steps: seq<Step>, l: nat, n: nat)
    requires l < n <= |steps|
  {
    && Queues(c, Run(c, steps[..l]), steps[l])
    && 0 <= OpenAt(c, steps, l) < ClaimedAt(c, steps, l)
    && OpenAt(c, steps, n) == OpenAt(c, steps, l)
  }

  /** A schedule lets a frame overtake: one frame leaves the store to be promoted, the render thread takes a
      later one out and queues it, and only then the first one is pushed. */
  ghost predicate Overtaking(c: Config, steps: seq<Step>) {
    exists l, k :: 0 <= l < k < |steps| && Passes(c, steps, l, k) && Closes(Run(c, steps[..k]), steps[k])
  }

  // ---------------------------------------------------------------------------------------------
  // The machine's own marks agree with the schedule

  /** `open` and `claimed` are the two positions, `passed` tells whether the open promotion was passed. */
  predicate Marked(m: Machine, open: int, claimed: int, passed: bool) {
    && (open >= 0 <==> m.pres.PGap? && !m.pres.p.warmup)
    && (m.rend.RTook? && m.rend.late ==> m.pres.PGap?)
    && (m.rend.RTook? && !m.rend.e.warmup ==> claimed >= 0)
    && (m.rend.RTook? && !m.rend.e.warmup && open >= 0 ==> (m.rend.late <==> open < claimed))
    && (m.pres.PGap? ==> (m.pres.overtaken <==> passed))
    && (passed ==> open >= 0)
  }

  function Opened(c: Config, m: Machine, s: Step, n: nat, open: int): int {
    if Closes(m, s) then -1 else if Opens(c, m, s) then n else open
  }

  function Claimed(m: Machine, s: Step, n: nat, claimed: int): int {
    if Claims(m, s) then n else if Submits(m, s) then -1 else claimed
  }

  predicate Passed(c: Config, m: Machine, s: Step, open: int, claimed: int, passed: bool) {
    !Closes(m, s) && !Opens(c, m, s) && (passed || (Queues(c, m, s) && 0 <= open < claimed))
  }

  lemma PresentMarked(c: Config, m: Machine, s: Step, n: nat, open: int, claimed: int, passed: bool)
    requires Marked(m, open, claimed, passed) && open < n && claimed < n
    requires !s.RenderClaim? && !s.RenderSubmit?
    ensures Marked(Present(c, m, s), Opened(c, m, s, n, open), claimed, Passed(c, m, s, open, claimed, passed))
    ensures Present(c, m, s).overtakes == m.overtakes + if Closes(m, s) && passed then 1 else 0
  {
  }

  lemma RenderMarked(c: Config, m: Machine, s: Step, n: nat, open: int, claimed: int, passed: bool)
    requires Marked(m, open, claimed, passed) && open < n && claimed < n
    requires !s.Submit? && !s.PushPromotion?
    ensures Marked(Render(c, m, s), open, Claimed(m, s, n, claimed), Passed(c, m, s, open, claimed, passed))
    ensures Render(c, m, s).overtakes == m.overtakes
  {
  }

  lemma StepMarked(c: Config, m: Machine, s: Step, n: nat, open: int, claimed: int, passed: bool)
    requires Marked(m, open, claimed, passed) && open < n && claimed < n && Orderly(m, s)
    ensures Marked(Next(c, m, s), Opened(c, m, s, n, open), Claimed(m, s, n, claimed),
                   Passed(c, m, s, open, claimed, passed))
    ensures Next(c, m, s).overtakes == m.overtakes + if Closes(m, s) && passed then 1 else 0
  {
    if s.RenderClaim? || s.RenderSubmit? || s.RenderStore? || s.RenderClock? || s.RenderFinish? || s.RenderUpdate? {
      RenderMarked(c, m, s, n, open, claimed, passed);
    } else {
      PresentMarked(c, m, s, n, open, claimed, passed);
    }
  }

  ghost predicate PassedAt(c: Config, steps: seq<Step>, n: nat)
    requires n <= |steps|
  {
    OpenAt(c, steps, n) >= 0 && exists l :: 0 <= l < n && Passes(c, steps, l, n)
  }

  ghost predicate OvertakingBefore(c: Config, steps: seq<Step>, n: nat)
    requires n <= |steps|
  {
    exists l, k :: 0 <= l < k < n && Passes(c, steps, l, k) && Closes(Run(c, steps[..k]), steps[k])
  }

  lemma PassedStep(c: Config, steps: seq<Step>, n: nat)
    requires n < |steps|
    ensures var m, s := Run(c, steps[..n]), steps[n];
            PassedAt(c, steps, n + 1) <==>
              Passed(c, m, s, OpenAt(c, steps, n), ClaimedAt(c, steps, n), PassedAt(c, steps, n))
  {
    var m, s := Run(c, steps[..n]), steps[n];
    if !Closes(m, s) && !Opens(c, m, s) {
      PassedGoesOn(c, steps, n);
    }
  }

  lemma PassedGoesOn(c: Config, steps: seq<Step>, n: nat)
    requires n < |steps| && OpenAt(c, steps, n + 1) == OpenAt(c, steps, n)
    ensures PassedAt(c, steps, n + 1) <==>
              PassedAt(c, steps, n) ||
              (Queues(c, Run(c, steps[..n]), steps[n]) && 0 <= OpenAt(c, steps, n) < ClaimedAt(c, steps, n))
  {
    if PassedAt(c, steps, n) {
      var l :| 0 <= l < n && Passes(c, steps, l, n);
      assert Passes(c, steps, l, n + 1);
    }
    if Queues(c, Run(c, steps[..n]), steps[n]) && 0 <= OpenAt(c, steps, n) < ClaimedAt(c, steps, n) {
      assert Passes(c, steps, n, n + 1);
    }
    if PassedAt(c, steps, n + 1) {
      var l :| 0 <= l < n + 1 && Passes(c, steps, l, n + 1);
      assert l < n ==> Passes(c, steps, l, n);
    }
  }

  lemma OvertakingStep(c: Config, steps: seq<Step>, n: nat)
    requires n < |steps|
    ensures OvertakingBefore(c, steps, n + 1) <==>
              OvertakingBefore(c, steps, n) || (Closes(Run(c, steps[..n]), steps[n]) && exists l :: 0 <= l < n && Passes(c, steps, l, n))
  {
    if OvertakingBefore(c, steps, n) {
      var l, k :| 0 <= l < k < n && Passes(c, steps, l, k) && Closes(Run(c, steps[..k]), steps[k]);
      assert k < n + 1;
    }
  }

  lemma {:induction false} RunMarked(c: Config, steps: seq<Step>, n: nat)
    requires OrderlyRun(c, steps) && n <= |steps|
    ensures OrderlyRun(c, steps[..n])
    ensures Marked(Run(c, steps[..n]), OpenAt(c, steps, n), ClaimedAt(c, steps, n), PassedAt(c, steps, n))
    ensures Run(c, steps[..n]).overtakes > 0 <==> OvertakingBefore(c, steps, n)
  {
    OrderlyPrefix(c, steps, n);
    if n > 0 {
      RunMarked(c, steps, n - 1);
      OrderlyAt(c, steps, n - 1);
      MarkedAfter(c, steps, n - 1);
      OvertakesAfter(c, steps, n - 1);
    }
  }

  lemma OrderlyAt(c: Config, steps: seq<Step>, n: nat)
    requires OrderlyRun(c, steps) && n < |steps|
    ensures Orderly(Run(c, steps[..n]), steps[n])
    ensures Run(c, steps[..n + 1]) == Next(c, Run(c, steps[..n]), steps[n])
  {
    OrderlyPrefix(c, steps, n + 1);
    assert steps[..n + 1][..n] == steps[..n];
  }

  lemma MarkedAfter(c: Config, steps: seq<Step>, n: nat)
    requires n < |steps| && Orderly(Run(c, steps[..n]), steps[n])
    requires Run(c, steps[..n + 1]) == Next(c, Run(c, steps[..n]), steps[n])
    requires Marked(Run(c, steps[..n]), OpenAt(c, steps, n), ClaimedAt(c, steps, n), PassedAt(c, steps, n))
    ensures Marked(Run(c, steps[..n + 1]), OpenAt(c, steps, n + 1), ClaimedAt(c, steps, n + 1), PassedAt(c, steps, n + 1))
  {
    StepMarked(c, Run(c, steps[..n]), steps[n], n, OpenAt(c, steps, n), ClaimedAt(c, steps, n), PassedAt(c, steps, n));
    PassedStep(c, steps, n);
  }

  lemma OvertakesAfter(c: Config, steps: seq<Step>, n: nat)
    requires n < |steps| && Orderly(Run(c, steps[..n]), steps[n])
    requires Run(c, steps[..n + 1]) == Next(c, Run(c, steps[..n]), steps[n])
    requires Marked(Run(c, steps[..n]), OpenAt(c, steps, n), ClaimedAt(c, steps, n), PassedAt(c, steps, n))
    requires Run(c, steps[..n]).overtakes > 0 <==> OvertakingBefore(c, steps, n)
    ensures Run(c, steps[..n + 1]).overtakes > 0 <==> OvertakingBefore(c, steps, n + 1)
  {
    StepMarked(c, Run(c, steps[..n]), steps[n], n, OpenAt(c, steps, n), ClaimedAt(c, steps, n), PassedAt(c, steps, n));
    OvertakingStep(c, steps, n);
  }

  lemma {:induction false} OrderlyPrefix(c: Config, steps: seq<Step>, n: nat)
    requires OrderlyRun(c, steps) && n <= |steps|
    ensures OrderlyRun(c, steps[..n])
    decreases |steps|
  {
    if n < |steps| {
      var init := steps[..|steps| - 1];
      OrderlyPrefix(c, init, n);
      assert init[..n] == steps[..n];
    } else {
      assert steps[..n] == steps;
    }
  }

  /** Over every interleaving, the real frames are queued in order exactly if the schedule lets none overtake. */
  lemma QueueOrder(c: Config, steps: seq<Step>)
    requires c.Valid() && OrderlyRun(c, steps)
    ensures Ordered(Run(c, steps).hub.pushed) <==> !Overtaking(c, steps)
  {
    RunOrder(c, steps);
    RunMarked(c, steps, |steps|);
    assert steps[..|steps|] == steps;
  }

  /** presentFrame promotes only while it sees the render pipeline idle.  If that view stays true, that
      is, if the render thread takes no frame while a promotion is open, the order is kept. */
  lemma IdleGuardKeepsOrder(c: Config, steps: seq<Step>)
    requires c.Valid() && OrderlyRun(c, steps)
    requires forall j :: 0 <= j < |steps| && Claims(Run(c, steps[..j]), steps[j]) ==> OpenAt(c, steps, j) < 0
    ensures Ordered(Run(c, steps).hub.pushed)
  {
    if Overtaking(c, steps) {
      var l, k :| 0 <= l < k < |steps| && Passes(c, steps, l, k) && Closes(Run(c, steps[..k]), steps[k]);
      StillOpen(c, steps, OpenAt(c, steps, l), ClaimedAt(c, steps, l), l);
      assert false;
    }
    QueueOrder(c, steps);
  }

  /** The promotion open after n steps was open at every step since it was opened, the claim included. */
  lemma StillOpen(c: Config, steps: seq<Step>, i: int, j: int, n: nat)
    requires n <= |steps| && i == OpenAt(c, steps, n) && j == ClaimedAt(c, steps, n) && 0 <= i < j
    ensures Claims(Run(c, steps[..j]), steps[j]) && OpenAt(c, steps, j) == i
  {
    ClaimStays(c, steps, j, n);
    StillOpenBefore(c, steps, i, j, n);
  }

  lemma {:induction false} StillOpenBefore(c: Config, steps: seq<Step>, i: int, j: nat, n: nat)
    requires j < n <= |steps| && i == OpenAt(c, steps, n) && 0 <= i < j
    ensures OpenAt(c, steps, j) == i
  {
    if j < n - 1 {
      StillOpenBefore(c, steps, i, j, n - 1);
    }
  }

  lemma {:induction false} ClaimStays(c: Config, steps: seq<Step>, j: nat, n: nat)
    requires n <= |steps| && j == ClaimedAt(c, steps, n)
    ensures Claims(Run(c, steps[..j]), steps[j])
  {
    if j < n - 1 {
      ClaimStays(c, steps, j, n - 1);
    }
  }

  // ---------------------------------------------------------------------------------------------
  // Without an overflow deque

  /** While a promotion is open nothing real is pending, so the render thread finds nothing newer to take. */
  predicate Calm(m: Machine) {
    && (m.pres.PGap? ==> NoReal(m.hub.held) && !m.pres.overtaken)
    && ((m.rend.RTook? || m.rend.RDefer?) && m.rend.late ==> m.rend.e.warmup)
  }

  lemma PresentCalm(c: Config, m: Machine, s: Step)
    requires c.Valid() && !c.overflowEnabled && Inv(c, m) && Calm(m)
    ensures Calm(Present(c, m, s))
  {
  }

  lemma RenderCalm(c: Config, m: Machine, s: Step)
    requires c.Valid() && !c.overflowEnabled && Inv(c, m) && Calm(m)
    ensures Calm(Render(c, m, s))
  {
    match (s, m.rend)
    case (RenderClaim, RIdle) =>
      assert m.hub.held != [] ==> m.hub.held[0] in m.hub.held;
    case (RenderSubmit, RTook(e, _)) =>
      SubmitMembers(c, m.hub, e);
    case (RenderStore(lock, now), RDefer(e, _)) =>
      StoreMembers(c.OverflowLimit(), m.hub.held, Stamp(m.hub, e, lock, now));
    case (RenderStore(lock, now), RWarm(e)) =>
      StoreMembers(c.OverflowLimit(), m.hub.held, Stamp(m.hub, e, lock, now));
    case _ =>
  }

  lemma CalmStep(c: Config, m: Machine, s: Step)
    requires c.Valid() && !c.overflowEnabled && Inv(c, m) && Calm(m) && Orderly(m, s)
    ensures Inv(c, Next(c, m, s)) && Calm(Next(c, m, s))
  {
    PresentOrder(c, m, s);
    RenderOrder(c, m, s);
    PresentCalm(c, m, s);
    RenderCalm(c, m, s);
    if s.PushPromotion? && m.pres.PGap? {
      PushPromotionOrder(c, m);
    }
  }

  lemma {:induction false} CalmRun(c: Config, steps: seq<Step>)
    requires c.Valid() && !c.overflowEnabled && OrderlyRun(c, steps)
    ensures Inv(c, Run(c, steps)) && Calm(Run(c, steps))
  {
    if steps != [] {
      CalmRun(c, steps[..|steps| - 1]);
      CalmStep(c, Run(c, steps[..|steps| - 1]), steps[|steps| - 1]);
    }
  }

  // ---------------------------------------------------------------------------------------------
  // What presentFrame sees of the render thread

  /** Whenever presentFrame sees the render pipeline idle, no render is between two of its sections. */
  predicate Seen(c: Config, steps: seq<Step>) {
    steps == [] ||
    (&& Seen(c, steps[..|steps| - 1])
     && (steps[|steps| - 1] == Snapshot(false) ==> Run(c, steps[..|steps| - 1]).rend.RIdle?))
  }

  /** Without an overflow deque: from the moment the pipeline is seen idle at most one frame is pending or in the
      render thread's hands, and an open promotion has taken it. */
  predicate Snug(c: Config, m: Machine) {
    && |m.hub.queue| <= c.depthLimit
    && (m.pres.PSnap? && !m.pres.busy ==> |m.hub.held| + |RendHand(m.rend)| <= 1)
    && (m.pres.PGap? ==> m.hub.held == [] && RendHand(m.rend) == [] && |m.hub.queue| < c.depthLimit)
  }

  lemma PresentSnug(c: Config, m: Machine, s: Step)
    requires c.Valid() && !c.overflowEnabled && HubShape(c, m.hub) && Snug(c, m)
    requires s == Snapshot(false) ==> m.rend.RIdle?
    ensures Snug(c, Present(c, m, s))
  {
  }

  lemma RenderSnug(c: Config, m: Machine, s: Step)
    requires c.Valid() && !c.overflowEnabled && HubShape(c, m.hub) && Snug(c, m)
    ensures Snug(c, Render(c, m, s))
  {
  }

  lemma {:induction false} SnugRun(c: Config, steps: seq<Step>)
    requires c.Valid() && !c.overflowEnabled && OrderlyRun(c, steps) && Seen(c, steps)
    ensures Snug(c, Run(c, steps))
  {
    if steps != [] {
      var init, s := steps[..|steps| - 1], steps[|steps| - 1];
      SnugRun(c, init);
      CalmRun(c, init);
      PresentSnug(c, Run(c, init), s);
      RenderSnug(c, Run(c, init), s);
    }
  }
}
