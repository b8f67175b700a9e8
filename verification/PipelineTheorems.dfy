/** The main results on the frame hand-off. */
module PipelineTheorems {
  import opened Sequences
  import opened FrameSpec
  import opened MediaClock
  import opened HandoffSpec
  import opened HandoffLaws
  import opened PipelineMachine
  import opened PipelineSafety
  import opened PipelineOrder
  import opened PipelineSchedule
  import opened PipelineScenarios

  // ---------------------------------------------------------------------------------------------
  // What "in order" means

  function RealPts(s: seq<Entry>): seq<real> {
    if s == [] then []
    else RealPts(s[..|s| - 1]) + (if s[|s| - 1].warmup then [] else [s[|s| - 1].pts])
  }

  predicate Increasing(a: seq<real>) {
    forall i, j :: 0 <= i < j < |a| ==> a[i] + EPS < a[j]
  }

  lemma IncreasingAppend(a: seq<real>, x: real)
    requires Increasing(a) && (a != [] ==> a[|a| - 1] + EPS < x)
    ensures Increasing(a + [x])
  {
    forall i | 0 <= i < |a|
      ensures a[i] + EPS < x
    {
      assert i < |a| - 1 ==> a[i] + EPS < a[|a| - 1];
    }
  }

  lemma {:induction false} OrderedIsIncreasing(s: seq<Entry>)
    requires Ordered(s)
    ensures Increasing(RealPts(s))
    ensures RealPts(s) != [] ==> RealPts(s)[|RealPts(s)| - 1] == LastReal(s)
  {
    if s != [] {
      OrderedIsIncreasing(s[..|s| - 1]);
      if s[|s| - 1].warmup {
        assert RealPts(s) == RealPts(s[..|s| - 1]);
      } else {
        IncreasingAppend(RealPts(s[..|s| - 1]), s[|s| - 1].pts);
      }
    }
  }

  /** ... and nothing else is in order. */
  lemma {:induction false} IncreasingIsOrdered(s: seq<Entry>)
    requires Increasing(RealPts(s)) && forall e :: e in s && !e.warmup ==> e.pts >= 0.0
    ensures Ordered(s)
    ensures LastReal(s) == if RealPts(s) == [] then -1.0 else RealPts(s)[|RealPts(s)| - 1]
  {
    if s != [] {
      var init, a, b := s[..|s| - 1], RealPts(s[..|s| - 1]), RealPts(s);
      assert forall i :: 0 <= i < |a| ==> a[i] == b[i];
      IncreasingIsOrdered(init);
      assert s[|s| - 1] in s;
      if !s[|s| - 1].warmup && a != [] {
        assert b[|a| - 1] + EPS < b[|a|];
      }
    }
  }

  lemma {:induction false} SortedSubset(a: seq<real>, b: seq<real>)
    requires Increasing(a) && Increasing(b) && forall x :: x in a ==> x in b
    ensures Subsequence(a, b)
  {
    if a != [] {
      var x := a[|a| - 1];
      assert x in b;
      var y := b[|b| - 1];
      var fewer, rest := a[..|a| - 1], b[..|b| - 1];
      if x == y {
        forall z | z in fewer
          ensures z in rest
        {
          var i :| 0 <= i < |a| - 1 && a[i] == z;
          assert a[i] in b && a[i] < x;
        }
        SortedSubset(fewer, rest);
      } else {
        forall z | z in a
          ensures z in rest
        {
          var i :| 0 <= i < |a| && a[i] == z;
          var k :| 0 <= k < |b| && b[k] == x;
          assert a[i] <= x && x < y;
        }
        SortedSubset(a, rest);
      }
    }
  }

  // Every frame in the pipeline was handed in.

  function Keys(s: seq<Entry>): set<(nat, real, bool)> {
    set e | e in s :: (e.frame, e.pts, e.warmup)
  }

  predicate Handed(s: seq<Entry>, keys: set<(nat, real, bool)>) {
    forall e :: e in s ==> (e.frame, e.pts, e.warmup) in keys
  }

  predicate AllHanded(m: Machine) {
    var keys := Keys(m.arrivals);
    Handed(m.hub.held, keys) && Handed(m.hub.pushed, keys) && Handed(PresHand(m.pres), keys) && Handed(RendHand(m.rend), keys)
  }

  lemma KeysGrow(s: seq<Entry>, e: Entry)
    ensures Keys(s) <= Keys(s + [e]) && (e.frame, e.pts, e.warmup) in Keys(s + [e])
  {
    assert forall x :: x in s ==> x in s + [e];
    assert e in s + [e];
  }

  lemma SubmitArrivalHanded(c: Config, m: Machine)
    requires AllHanded(m) && m.pres.PSnap?
    ensures AllHanded(Present(c, m, Submit))
  {
    assert m.pres.f in PresHand(m.pres);
  }

  lemma StoreArrivalHanded(c: Config, m: Machine, lock: bool, now: nat)
    requires AllHanded(m) && m.pres.PStore?
    ensures AllHanded(Present(c, m, StoreArrival(lock, now)))
  {
    assert m.pres.f in PresHand(m.pres);
    StoreMembers(c.OverflowLimit(), m.hub.held, Stamp(m.hub, m.pres.f, lock, now));
  }

  lemma EnterHanded(c: Config, m: Machine, s: Step)
    requires AllHanded(m) && m.pres.PIdle? && (s.Arrive? || s.ArriveDirect?)
    ensures AllHanded(Present(c, m, s))
  {
    KeysGrow(m.arrivals, s.f);
    PruneMembers(m.hub.held, s.f.pts);
  }

  lemma PresentHanded(c: Config, m: Machine, s: Step)
    requires AllHanded(m)
    ensures AllHanded(Present(c, m, s))
  {
    match (s, m.pres)
    case (Arrive(_), PIdle) =>
      EnterHanded(c, m, s);
    case (ArriveDirect(_), PIdle) =>
      EnterHanded(c, m, s);
    case (Submit, PSnap(_, _, _)) =>
      SubmitArrivalHanded(c, m);
    case (PushPromotion, PGap(f, p, _, _)) =>
      assert f in PresHand(m.pres) && p in PresHand(m.pres);
    case (StoreArrival(lock, now), PStore(_)) =>
      StoreArrivalHanded(c, m, lock, now);
    case _ =>
  }

  lemma SubmitHanded(c: Config, m: Machine, e: Entry, late: bool)
    requires AllHanded(m) && m.rend == RTook(e, late)
    ensures AllHanded(SubmitClaimed(c, m, e, late))
  {
    assert e in RendHand(m.rend);
    SubmitMembers(c, m.hub, e);
    assert PresHand(Crowd(Overtake(m.pres, e, late))) == PresHand(m.pres);
  }

  lemma RenderHanded(c: Config, m: Machine, s: Step)
    requires AllHanded(m)
    ensures AllHanded(Render(c, m, s))
  {
    match (s, m.rend)
    case (RenderSubmit, RTook(e, late)) =>
      SubmitHanded(c, m, e, late);
    case (RenderStore(lock, now), RDefer(e, _)) =>
      assert e in RendHand(m.rend);
      StoreMembers(c.OverflowLimit(), m.hub.held, Stamp(m.hub, e, lock, now));
    case (RenderStore(lock, now), RWarm(e)) =>
      assert e in RendHand(m.rend);
      StoreMembers(c.OverflowLimit(), m.hub.held, Stamp(m.hub, e, lock, now));
    case _ =>
  }

  lemma {:induction false} RunHanded(c: Config, steps: seq<Step>)
    requires OrderlyRun(c, steps)
    ensures AllHanded(Run(c, steps))
  {
    if steps != [] {
      var m, s := Run(c, steps[..|steps| - 1]), steps[|steps| - 1];
      RunHanded(c, steps[..|steps| - 1]);
      StepHanded(c, m, s);
    }
  }

  lemma StepHanded(c: Config, m: Machine, s: Step)
    requires AllHanded(m) && Orderly(m, s)
    ensures AllHanded(Next(c, m, s))
  {
    PresentHanded(c, m, s);
    RenderHanded(c, m, s);
  }

  lemma StepArrivals(c: Config, m: Machine, s: Step)
    requires Ordered(m.arrivals) && Orderly(m, s)
    ensures Ordered(Next(c, m, s).arrivals)
  {
    if Incoming(s) != [] {
      PushOrder(m.arrivals, Incoming(s)[0]);
    }
  }

  lemma {:induction false} RunArrivals(c: Config, steps: seq<Step>)
    requires OrderlyRun(c, steps)
    ensures Ordered(Run(c, steps).arrivals)
  {
    if steps != [] {
      RunArrivals(c, steps[..|steps| - 1]);
      StepArrivals(c, Run(c, steps[..|steps| - 1]), steps[|steps| - 1]);
    }
  }

  lemma {:induction false} RealPtsIn(s: seq<Entry>, x: real)
    ensures x in RealPts(s) <==> exists e :: e in s && !e.warmup && e.pts == x
  {
    if s != [] {
      RealPtsIn(s[..|s| - 1], x);
      assert forall e :: e in s <==> e in s[..|s| - 1] || e == s[|s| - 1];
    }
  }

  /** When the schedule lets no frame overtake, and always without an overflow deque, the time stamps pushed to
      the queue are a strictly increasing subsequence of the time stamps that arrived. */
  lemma InOrderDelivery(c: Config, steps: seq<Step>)
    requires c.Valid() && OrderlyRun(c, steps) && (!c.overflowEnabled || !Overtaking(c, steps))
    ensures Increasing(RealPts(Run(c, steps).hub.pushed))
    ensures Subsequence(RealPts(Run(c, steps).hub.pushed), RealPts(Run(c, steps).arrivals))
  {
    var m := Run(c, steps);
    if !c.overflowEnabled {
      CalmRun(c, steps);
    } else {
      QueueOrder(c, steps);
    }
    RunHanded(c, steps);
    RunArrivals(c, steps);
    OrderedIsIncreasing(m.hub.pushed);
    OrderedIsIncreasing(m.arrivals);
    forall x | x in RealPts(m.hub.pushed)
      ensures x in RealPts(m.arrivals)
    {
      RealPtsIn(m.hub.pushed, x);
      RealPtsIn(m.arrivals, x);
      var e :| e in m.hub.pushed && !e.warmup && e.pts == x;
      assert (e.frame, e.pts, e.warmup) in Keys(m.arrivals);
    }
    SortedSubset(RealPts(m.hub.pushed), RealPts(m.arrivals));
  }

  /** The hand-off keeps the order of frames in every run, whatever the schedule, if and only if it runs
      without an overflow deque; and nothing changes when presentFrame sees the pipeline idle only between two
      renders. */
  lemma OrderNeedsNoOverflow(c: Config)
    requires c.Valid()
    ensures (forall steps :: OrderlyRun(c, steps) ==> Ordered(Run(c, steps).hub.pushed)) <==> !c.overflowEnabled
    ensures (forall steps :: OrderlyRun(c, steps) && Seen(c, steps) ==> Ordered(Run(c, steps).hub.pushed))
            <==> !c.overflowEnabled
  {
    if c.overflowEnabled {
      var steps := OvertakingIsReachable(c);
      assert OrderlyRun(c, steps) && Seen(c, steps) && !Ordered(Run(c, steps).hub.pushed);
    } else {
      forall steps | OrderlyRun(c, steps)
        ensures Ordered(Run(c, steps).hub.pushed)
      {
        CalmRun(c, steps);
      }
    }
  }

  /** ... and the queue stays within its limit in every run, as far as presentFrame sees the render pipeline idle
      only between two renders, under the same condition. */
  lemma LimitNeedsNoOverflow(c: Config)
    requires c.Valid()
    ensures (forall steps :: OrderlyRun(c, steps) && Seen(c, steps) ==> |Run(c, steps).hub.queue| <= c.depthLimit)
            <==> !c.overflowEnabled
  {
    if c.overflowEnabled {
      var steps := OvertakingIsReachable(c);
      assert OrderlyRun(c, steps) && Seen(c, steps) && |Run(c, steps).hub.queue| > c.depthLimit;
    } else {
      forall steps | OrderlyRun(c, steps) && Seen(c, steps)
        ensures |Run(c, steps).hub.queue| <= c.depthLimit
      {
        SnugRun(c, steps);
      }
    }
  }
}
