/** The deferred-swap thread: a mailbox with room for one task, and the flag its only customer goes by. */
module SwapMailbox {
  import opened Wrappers
  import opened Sequences

  /** Where the swap thread is between its locked sections. */
  datatype Pc =
    | Waiting                 // at the head of its loop
    | Running(task: nat)      // task taken, not yet carried out
    | Ran                     // carried out, still marked active
    | Inactive                // no longer active, flag not yet cleared
    | Released                // flag cleared unless new work came
    | Gone

  /** Where the render thread is on its way to hand over a task. */
  datatype Customer = Free | Checked(task: nat) | Marked(task: nat)

  /** `accepted` and `processed` are histories; `overwritten` counts accepted tasks that were replaced
      before the thread took them. */
  datatype State = State(
    pending: Option<nat>, active: bool, stopping: bool, inFlight: bool, pc: Pc, customer: Customer,
    accepted: seq<nat>, processed: seq<nat>, overwritten: nat)

  function Initial(): State {
    State(None, false, false, false, Waiting, Free, [], [], 0)
  }

  function Enqueue(s: State, task: nat): State {
    if s.stopping then s
    else s.(pending := Some(task), accepted := s.accepted + [task],
            overwritten := s.overwritten + (if s.pending.Some? then 1 else 0))
  }

  /** The thread's loop, section by section. */
  function Advance(s: State): State {
    match s.pc
    case Waiting =>
      if s.stopping then s.(pc := Gone, active := false)
      else if s.pending.None? then s
      else s.(pending := None, active := true, pc := Running(s.pending.value))
    case Running(task) => s.(processed := s.processed + [task], pc := Ran)
    case Ran => s.(active := false, pc := Inactive)
    case Inactive => if s.pending.None? then s.(inFlight := false, pc := Released) else s.(pc := Released)
    case Released => s.(pc := Waiting)
    case Gone => s
  }

  /** The thread object. */
  class DeferredSwap {
    var pendingTask: Option<nat>
    var active: bool
    var stopping: bool
    var deferredPresentInFlight: bool
    var pc: Pc
    ghost var customer: Customer
    ghost var accepted: seq<nat>
    ghost var processed: seq<nat>
    ghost var overwritten: nat

    ghost function View(): State
      reads this
    {
      State(pendingTask, active, stopping, deferredPresentInFlight, pc, customer, accepted, processed, overwritten)
    }

    constructor ()
      ensures Flow(View()) && View() == Initial()
    {
      pendingTask, active, stopping, deferredPresentInFlight, pc := None, false, false, false, Waiting;
      customer, accepted, processed, overwritten := Free, [], [], 0;
    }

    /** An accepted task comes last on the way through the mailbox; if one still waited, it takes its place. */
    method Post(task: nat) returns (ok: bool)
      requires Flow(View())
      modifies this
      ensures Flow(View()) && View() == Enqueue(old(View()), task) && ok == !old(stopping)
      ensures var t := old(Through(View()));
              Through(View()) == if !ok then t else (if old(pendingTask).Some? then t[..|t| - 1] else t) + [task]
    {
      EnqueueFlow(View(), task);
      if !stopping {
        EnqueueThrough(View(), task);
      }
      ok := PutTask(task);
    }

    method PutTask(task: nat) returns (ok: bool)
      modifies this
      ensures View() == Enqueue(old(View()), task) && ok == !old(stopping)
    {
      if stopping {
        return false;
      }
      overwritten := overwritten + (if pendingTask.Some? then 1 else 0);
      accepted := accepted + [task];
      pendingTask := Some(task);
      return true;
    }

    method IsIdle() returns (idle: bool)
      ensures idle == (pendingTask.None? && !active)
    {
      idle := pendingTask.None? && !active;
    }

    method StopThread()
      requires Flow(View())
      modifies this
      ensures Flow(View()) && View() == old(View()).(stopping := true)
    {
      stopping := true;
    }

    /** Every section of the thread moves tasks along without losing one or changing their order. */
    method RunSection()
      requires Flow(View())
      modifies this
      ensures Flow(View()) && View() == Advance(old(View()))
      ensures Through(View()) == old(Through(View())) && accepted == old(accepted) && overwritten == old(overwritten)
    {
      ThreadFlow(View());
      AdvanceThrough(View());
      StepOn();
    }

    method StepOn()
      modifies this
      ensures View() == Advance(old(View()))
    {
      match pc
      case Waiting =>
        if stopping {
          pc, active := Gone, false;
        } else if pendingTask.Some? {
          pc := Running(pendingTask.value);
          pendingTask, active := None, true;
        }
      case Running(task) =>
        processed := processed + [task];
        pc := Ran;
      case Ran =>
        pc, active := Inactive, false;
      case Inactive =>
        pc := Released;
        if pendingTask.None? {
          deferredPresentInFlight := false;
        }
      case Released =>
        pc := Waiting;
      case Gone =>
    }
  }

  // ---------------------------------------------------------------------------------------------
  // Every interleaving

  /** Check, Mark and Submit are the three actions of the render thread; Forget is a session change or a
      lost device clearing the flag. */
  datatype Step = Check(task: nat) | Mark | Submit | Thread | Stop | Forget

  function Next(s: State, step: Step): State {
    match step
    case Check(task) => if s.customer.Free? && !s.inFlight then s.(customer := Checked(task)) else s
    case Mark => if s.customer.Checked? then s.(customer := Marked(s.customer.task), inFlight := true) else s
    case Submit =>
      if s.customer.Marked? then
        var r := Enqueue(s, s.customer.task);
        r.(customer := Free, inFlight := s.inFlight && !s.stopping)
      else s
    case Thread => Advance(s)
    case Stop => s.(stopping := true)
    case Forget => s.(inFlight := false)
  }

  function Run(steps: seq<Step>): State {
    if steps == [] then Initial() else Next(Run(steps[..|steps| - 1]), steps[|steps| - 1])
  }

  /** Everything on its way through the mailbox, oldest first. */
  function Through(s: State): seq<nat> {
    s.processed + (if s.pc.Running? then [s.pc.task] else []) + (if s.pending.Some? then [s.pending.value] else [])
  }

  /** `t` is a faithful excerpt of what was accepted, complete at its end. */
  predicate Excerpt(t: seq<nat>, accepted: seq<nat>, overwritten: nat) {
    && Subsequence(t, accepted)
    && |accepted| == |t| + overwritten
    && (accepted != [] ==> t != [] && t[|t| - 1] == accepted[|accepted| - 1])
  }

  predicate Flow(s: State) {
    && Excerpt(Through(s), s.accepted, s.overwritten)
    && (s.active <==> s.pc.Running? || s.pc.Ran?)
  }

  lemma ExcerptAppend(t: seq<nat>, accepted: seq<nat>, overwritten: nat, x: nat)
    requires Excerpt(t, accepted, overwritten)
    ensures Excerpt(t + [x], accepted + [x], overwritten)
  {
    SubsequenceExtend(t, accepted, x);
  }

  lemma ExcerptReplace(t: seq<nat>, accepted: seq<nat>, overwritten: nat, x: nat)
    requires Excerpt(t, accepted, overwritten) && t != []
    ensures Excerpt(t[..|t| - 1] + [x], accepted + [x], overwritten + 1)
  {
    SubsequenceInit(t, accepted);
    SubsequenceExtend(t[..|t| - 1], accepted, x);
  }

  lemma EnqueueThrough(s: State, task: nat)
    requires !s.stopping
    ensures var t, n := Through(s), Through(Enqueue(s, task));
            if s.pending.Some? then t != [] && n == t[..|t| - 1] + [task] else n == t + [task]
  {
  }

  lemma EnqueueFlow(s: State, task: nat)
    requires Flow(s)
    ensures Flow(Enqueue(s, task))
  {
    if !s.stopping {
      var t := Through(s);
      EnqueueThrough(s, task);
      if s.pending.Some? {
        ExcerptReplace(t, s.accepted, s.overwritten, task);
      } else {
        ExcerptAppend(t, s.accepted, s.overwritten, task);
      }
    }
  }

  lemma AdvanceThrough(s: State)
    ensures Through(Advance(s)) == Through(s)
  {
  }

  lemma SubmitFlow(s: State)
    requires Flow(s) && s.customer.Marked?
    ensures Flow(Next(s, Submit))
  {
    var r := Enqueue(s, s.customer.task);
    EnqueueFlow(s, s.customer.task);
    assert Flow(r.(customer := Free, inFlight := s.inFlight && !s.stopping));
  }

  lemma AdvanceActive(s: State)
    requires s.active <==> s.pc.Running? || s.pc.Ran?
    ensures var n := Advance(s);
            && (n.active <==> n.pc.Running? || n.pc.Ran?)
            && n.accepted == s.accepted && n.overwritten == s.overwritten
  {
  }

  lemma ThreadFlow(s: State)
    requires Flow(s)
    ensures Flow(Advance(s))
  {
    AdvanceThrough(s);
    AdvanceActive(s);
  }

  lemma StepFlow(s: State, step: Step)
    requires Flow(s)
    ensures Flow(Next(s, step))
  {
    if step.Submit? && s.customer.Marked? {
      SubmitFlow(s);
    } else if step.Thread? {
      ThreadFlow(s);
    } else {
      assert Through(Next(s, step)) == Through(s);
    }
  }

  lemma {:induction false} RunFlow(steps: seq<Step>)
    ensures Flow(Run(steps))
  {
    if steps != [] {
      RunFlow(steps[..|steps| - 1]);
      StepFlow(Run(steps[..|steps| - 1]), steps[|steps| - 1]);
    } else {
      assert Through(Initial()) == [];
    }
  }

  /** The tasks processed are an in-order subsequence of the tasks accepted. */
  lemma ProcessedInOrder(steps: seq<Step>)
    ensures Subsequence(Run(steps).processed, Run(steps).accepted)
  {
    var s := Run(steps);
    RunFlow(steps);
    var t := Through(s);
    if s.pending.Some? {
      SubsequenceInit(t, s.accepted);
      t := t[..|t| - 1];
    }
    if s.pc.Running? {
      SubsequenceInit(t, s.accepted);
      t := t[..|t| - 1];
    }
    assert t == s.processed;
  }

  /** Whenever the mailbox is idle, which is when a drain returns, the last accepted task has been processed,
      and all accepted tasks have been processed exactly if none was overwritten. */
  lemma IdleMeansCaughtUp(steps: seq<Step>)
    requires var s := Run(steps); s.pending.None? && !s.active
    ensures var s := Run(steps);
            && (s.accepted != [] ==> s.processed != [] && s.processed[|s.processed| - 1] == s.accepted[|s.accepted| - 1])
            && (s.processed == s.accepted <==> s.overwritten == 0)
  {
    RunFlow(steps);
    var s := Run(steps);
    assert Through(s) == s.processed;
    SubsequenceLength(s.processed, s.accepted);
  }

  // ---------------------------------------------------------------------------------------------
  // The guard

  /** Nothing waits, the thread will not clear the flag any more for a task it had, and the render thread is not
      about to hand one over. */
  predicate Settled(s: State) {
    s.pending.None? && (s.pc.Waiting? || s.pc.Released? || s.pc.Gone?) && !s.customer.Marked?
  }

  /** Clear flag: the mailbox is settled.  After a stop nothing is accepted any more. */
  predicate Guarded(s: State) {
    && s.overwritten == 0
    && (!s.stopping ==>
         && (!s.inFlight ==> Settled(s))
         && (!s.customer.Free? ==> s.pending.None? && (s.pc.Waiting? || s.pc.Released? || s.pc.Gone?)))
  }

  /** A session change or a lost device clears the flag only when that is harmless. */
  predicate Careful(steps: seq<Step>) {
    steps == [] ||
    (&& Careful(steps[..|steps| - 1])
     && (steps[|steps| - 1] == Forget ==> Run(steps[..|steps| - 1]).stopping || Settled(Run(steps[..|steps| - 1]))))
  }

  /** Handing a task over keeps the flag, unless the thread is being stopped and refuses it; the thread clears the flag
      only when no other task waits. */
  lemma FlagMeaning(s: State)
    ensures s.customer.Marked? ==>
              var r := Next(s, Submit);
              r.inFlight == (s.inFlight && !s.stopping) && r.accepted == s.accepted + if s.stopping then [] else [s.customer.task]
    ensures var r := Next(s, Thread);
            s.inFlight && !r.inFlight <==> s.inFlight && s.pc.Inactive? && s.pending.None?
  {
    assert s.accepted + [] == s.accepted;
  }

  lemma GuardStep(s: State, step: Step)
    requires Guarded(s) && (step == Forget ==> s.stopping || Settled(s))
    ensures Guarded(Next(s, step))
  {
  }

  lemma {:induction false} GuardHolds(steps: seq<Step>)
    requires Careful(steps)
    ensures Guarded(Run(steps))
  {
    if steps != [] {
      GuardHolds(steps[..|steps| - 1]);
      GuardStep(Run(steps[..|steps| - 1]), steps[|steps| - 1]);
    }
  }

  lemma {:induction false} NeverForgetting(steps: seq<Step>)
    requires Forget !in steps
    ensures Careful(steps)
  {
    if steps != [] {
      assert steps[|steps| - 1] in steps;
      NeverForgetting(steps[..|steps| - 1]);
    }
  }

  /** As long as the in-flight flag is cleared from outside only when that is harmless, nothing is overwritten:
      an idle mailbox has processed exactly the accepted tasks. */
  lemma GuardedLosesNothing(steps: seq<Step>)
    requires Careful(steps)
    ensures Run(steps).overwritten == 0
    ensures var s := Run(steps); s.pending.None? && !s.active ==> s.processed == s.accepted
  {
    GuardHolds(steps);
    if Run(steps).pending.None? && !Run(steps).active {
      IdleMeansCaughtUp(steps);
    }
  }

  lemma RunAppend(steps: seq<Step>, step: Step)
    ensures Run(steps + [step]) == Next(Run(steps), step)
  {
    assert (steps + [step])[..|steps|] == steps;
  }

  // What can follow when the flag is cleared at the wrong moment

  function Then(s: State, steps: seq<Step>): State {
    if steps == [] then s else Next(Then(s, steps[..|steps| - 1]), steps[|steps| - 1])
  }

  lemma {:induction false} RunThen(steps: seq<Step>, more: seq<Step>)
    ensures Run(steps + more) == Then(Run(steps), more)
  {
    if more == [] {
      assert steps + more == steps;
    } else {
      RunThen(steps, more[..|more| - 1]);
      assert (steps + more)[..|steps + more| - 1] == steps + more[..|more| - 1];
    }
  }

  lemma {:induction false} ThenFirst(s: State, step: Step, more: seq<Step>)
    ensures Then(s, [step] + more) == Then(Next(s, step), more)
  {
    if more == [] {
      assert [step] + more == [step] && [step][..0] == [];
    } else {
      ThenFirst(s, step, more[..|more| - 1]);
      assert ([step] + more)[..|more|] == [step] + more[..|more| - 1];
    }
  }

  /** Some schedule without further outside clearing ends in an overwritten task. */
  ghost predicate CanOverwrite(s: State) {
    exists more: seq<Step> :: Forget !in more && Then(s, more).overwritten > 0
  }

  lemma OverwriteLater(s: State, step: Step)
    requires CanOverwrite(Next(s, step)) && step != Forget
    ensures CanOverwrite(s)
  {
    var more: seq<Step> :| Forget !in more && Then(Next(s, step), more).overwritten > 0;
    ThenFirst(s, step, more);
    assert Forget !in [step] + more;
  }

  lemma OverwriteNow(s: State)
    requires s.overwritten > 0
    ensures CanOverwrite(s)
  {
    var none: seq<Step> := [];
    assert Forget !in none && Then(s, none).overwritten > 0;
  }

  /** A task waits although the flag is clear: the next one that is handed over replaces it. */
  lemma WaitingIsReplaced(s: State)
    requires s.pending.Some? && s.customer.Free? && !s.stopping && !s.inFlight
    ensures CanOverwrite(s)
  {
    var s1 := Next(s, Check(0));
    var s2 := Next(s1, Mark);
    OverwriteNow(Next(s2, Submit));
    OverwriteLater(s2, Submit);
    OverwriteLater(s1, Mark);
    OverwriteLater(s, Check(0));
  }

  /** A task is about to be handed over although the flag is clear: it will wait without protection. */
  lemma MarkedIsReplaced(s: State)
    requires s.customer.Marked? && !s.stopping && !s.inFlight
    ensures CanOverwrite(s)
  {
    WaitingIsReplaced(Next(s, Submit));
    OverwriteLater(s, Submit);
  }

  /** The thread is about to clear the flag: if the next task is announced before, it loses its protection. */
  lemma {:induction false} LateClearing(s: State)
    requires s.pending.None? && s.customer.Marked? && !s.stopping
    requires s.pc.Running? || s.pc.Ran? || s.pc.Inactive?
    ensures CanOverwrite(s)
    decreases if s.pc.Running? then 2 else if s.pc.Ran? then 1 else 0
  {
    if s.pc.Inactive? {
      MarkedIsReplaced(Next(s, Thread));
    } else {
      LateClearing(Next(s, Thread));
    }
    OverwriteLater(s, Thread);
  }

  lemma UnsettledIsReplaced(s: State)
    requires Guarded(s) && !s.stopping && !Settled(s)
    ensures CanOverwrite(Next(s, Forget))
  {
    var r := Next(s, Forget);
    if r.pending.Some? {
      WaitingIsReplaced(r);
    } else if r.customer.Marked? {
      MarkedIsReplaced(r);
    } else {
      var r1 := Next(r, Check(0));
      LateClearing(Next(r1, Mark));
      OverwriteLater(r1, Mark);
      OverwriteLater(r, Check(0));
    }
  }

  /** Clearing the flag from outside is harmless, whatever follows, if and only if the mailbox is settled or the
      thread is being stopped. */
  lemma ForgettingIsHarmless(steps: seq<Step>)
    requires Careful(steps)
    ensures (forall more: seq<Step> :: Forget !in more ==> Run(steps + [Forget] + more).overwritten == 0)
            <==> Run(steps).stopping || Settled(Run(steps))
  {
    var s := Run(steps);
    RunAppend(steps, Forget);
    GuardHolds(steps);
    if s.stopping || Settled(s) {
      assert (steps + [Forget])[..|steps|] == steps;
      forall more: seq<Step> | Forget !in more
        ensures Run(steps + [Forget] + more).overwritten == 0
      {
        CarefulGoesOn(steps + [Forget], more);
        GuardHolds(steps + [Forget] + more);
      }
    } else {
      UnsettledIsReplaced(s);
      var more: seq<Step> :| Forget !in more && Then(Next(s, Forget), more).overwritten > 0;
      RunThen(steps + [Forget], more);
      assert Run(steps + [Forget] + more).overwritten > 0;
    }
  }

  lemma {:induction false} CarefulGoesOn(steps: seq<Step>, more: seq<Step>)
    requires Careful(steps) && Forget !in more
    ensures Careful(steps + more)
  {
    if more == [] {
      assert steps + more == steps;
    } else {
      assert more[|more| - 1] in more;
      CarefulGoesOn(steps, more[..|more| - 1]);
      assert (steps + more)[..|steps + more| - 1] == steps + more[..|more| - 1];
    }
  }
}
