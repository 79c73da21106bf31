/**
 Who runs after a step: relatives first, then the threads in turn.  Everything is said about the
 state before the step.
 */
module NextThread {
  import opened Basics
  import opened Threads
  import opened Scheduler
  import opened Lifecycle
  import opened Rings
  import opened Steps
  import opened CoreInvariant
  import opened Effects
  import opened Choices
  import opened StepParts

  // ---- The choice

  /** A child that can run is chosen before a parent that can run, and that before everybody else, in
      turn from the slot after the current one. */
  lemma ChoicePrefersKin(ts: seq<Thread>, current: int)
    requires 0 <= current < |ts| && SomeoneCanRun(ts)
    ensures var r, t := ChooseNextThread(ts, current), ts[current];
            if CanSchedule(ts, t.child) then r == t.child
            else if CanSchedule(ts, t.parent) then r == t.parent
            else exists k | current < k <= current + |ts| :: r == k % |ts| && IsFirst(ts, current + 1, k)
  {
    var start := SearchStart(ts, current);
    ChooseFindsNoneIff(ts, current);
    FirstSchedulableIsFirst(ts, start, |ts|);
    if start < |ts| && CanSchedule(ts, start) {
      WrapOnce(start, |ts|);
    }
  }

  // ---- Steps

  /** The running thread cannot go on: it ends, waits, cancels itself or is hidden. */
  predicate GivesUp(s: KState, e: Event)
    requires s.WF() && s.current != NULL
  {
    e.ThreadExit? || (e.Syscall? && (!e.stackOk || Parks(s, e.call)))
  }

  /** Thread i can run once the step has had its effect. */
  predicate CanRunAfter(s: KState, e: Event, i: int)
    requires s.WF() && s.current != NULL
  {
    CanSchedule(s.threads, i) && (i == s.current ==> !GivesUp(s, e))
  }

  /** The event hands the processor to the thread it names. */
  predicate HandsOver(s: KState, e: Event)
    requires s.WF() && s.current != NULL
  {
    IsCall(e) && YieldsTo(s, e.call)
  }

  lemma ParkedRecords(s: KState, call: Call)
    requires Core(s) && CallIsUsable(s, call) && RunsScheduler(s, call)
    ensures var x := CallEffect(s, call); x.current == s.current && ParksOnly(s, x.threads, Parks(s, call))
  {
    if call.ThreadCancel? {
      CancelChangesSlot(s, call.tid);
    } else if call.CondVar? {
      WaitKeepsThreads(s, call.cv.value);
    }
  }

  predicate SameKin(t: Thread, u: Thread) {
    u.id == t.id && u.child == t.child && u.parent == t.parent
  }

  /** What the scheduler sees of the threads. */
  ghost predicate SeesThreads(s: KState, e: Event, x: KState)
    requires s.WF() && s.current != NULL
  {
    && x.current == s.current && |x.threads| == |s.threads|
    && x.threads[s.current].child == s.Current().child && x.threads[s.current].parent == s.Current().parent
    && forall i :: CanSchedule(x.threads, i) <==> CanRunAfter(s, e, i)
  }

  lemma CallSeen(s: KState, f: Frame, call: Call)
    requires Core(s) && Allowed(s, Syscall(f, call, true)) && RunsScheduler(s, call)
    ensures SeesThreads(s, Syscall(f, call, true), CallEffect(CallEntry(s, f), call))
  {
    var x := CallEntry(s, f);
    HandledStepIs(s, f, call);
    CallEntryTouches(s, f);
    EntryDecidesSame(s, x, call);
    ParkedRecords(x, call);
    EntryParksSame(s, f, call);
    ParkedSeen(s, Syscall(f, call, true), x, CallEffect(x, call));
  }

  /** From the entered state x, in which all is as in s, to the effect y. */
  lemma ParkedSeen(s: KState, e: Event, x: KState, y: KState)
    requires s.WF() && s.current != NULL && IsCall(e) && x.WF() && x.current == s.current
    requires |x.threads| == |s.threads| && SameKin(s.threads[s.current], x.threads[s.current])
    requires forall i :: CanSchedule(x.threads, i) <==> CanSchedule(s.threads, i)
    requires y.current == s.current && ParksOnly(x, y.threads, Parks(s, e.call))
    ensures SeesThreads(s, e, y)
  {
    forall i
      ensures CanSchedule(y.threads, i) <==> CanRunAfter(s, e, i)
    {
      assert i != s.current ==> (CanSchedule(y.threads, i) <==> CanSchedule(x.threads, i));
    }
  }

  /** At most the running thread is parked. */
  ghost predicate ParksOnly(s: KState, ts: seq<Thread>, parks: bool)
    requires s.WF() && s.current != NULL
  {
    && |ts| == |s.threads| && (forall i | 0 <= i < |s.threads| && i != s.current :: ts[i] == s.threads[i])
    && SameKin(s.threads[s.current], ts[s.current])
    && (if parks then !CanSchedule(ts, s.current) else ts == s.threads)
  }

  lemma EntryParksSame(s: KState, f: Frame, call: Call)
    requires s.WF() && s.current != NULL
    ensures var x := CallEntry(s, f);
            && |x.threads| == |s.threads| && (Parks(x, call) <==> Parks(s, call))
            && (YieldsTo(x, call) <==> YieldsTo(s, call))
            && SameKin(s.threads[s.current], x.threads[s.current])
            && forall i :: CanSchedule(x.threads, i) <==> CanSchedule(s.threads, i)
  {
  }

  lemma OthersSeen(s: KState, e: Event)
    requires Core(s) && Allowed(s, e) && (e.ThreadSwitch? || e.TimerTick? || e.ThreadExit?)
    ensures SeesThreads(s, e, Affected(s, e))
  {
    if e.ThreadExit? {
      EndedIs(s, e.frame);
    }
  }

  lemma HiddenSeen(s: KState, e: Event)
    requires Core(s) && Allowed(s, e) && e.Syscall? && !e.stackOk
    ensures SeesThreads(s, e, Affected(s, e))
  {
  }

  lemma SchedulerSees(s: KState, e: Event)
    requires Core(s) && Allowed(s, e) && Schedules(s, e)
    ensures SeesThreads(s, e, Affected(s, e))
  {
    if IsCall(e) {
      HandledStepIs(s, e.frame, e.call);
      CallAffects(s, e.frame, e.call);
      CallSeen(s, e.frame, e.call);
    } else if e.Syscall? {
      HiddenSeen(s, e);
    } else {
      OthersSeen(s, e);
    }
  }

  /** The choice that do_scheduler makes in a step. */
  ghost function NextOf(s: KState, e: Event): int
    requires Allowed(s, e) && Affected(s, e).current != NULL
  {
    if !Schedules(s, e) then s.current
    else if HandsOver(s, e) then e.call.tid
    else ChooseNextThread(Affected(s, e).threads, Affected(s, e).current)
  }

  lemma HandledNext(x: KState, before: KState, call: Call)
    requires Core(x) && CallIsUsable(x, call) && before.WF() && before.current != NULL
    requires Handled(x, before, call).exit.None?
    ensures CallEffect(x, call).current == x.current
    ensures Handled(x, before, call).next == if RunsScheduler(x, call) then ChosenBy(x, call) else x.current
  {
    CallDecides(x, call);
  }

  lemma CallNext(s: KState, f: Frame, call: Call)
    requires Core(s) && Allowed(s, Syscall(f, call, true)) && Step(s, Syscall(f, call, true)).exit.None?
    ensures var e := Syscall(f, call, true);
            Affected(s, e).current == s.current && Step(s, e).current == NextOf(s, e)
  {
    CallStepIs(s, f, call);
    HandledNext(CallEntry(s, f), Saved(s, f), call);
    CallEntryTouches(s, f);
    EntryDecidesSame(s, CallEntry(s, f), call);
    EntryParksSame(s, f, call);
    ReturnIs(Handled(CallEntry(s, f), Saved(s, f), call));
  }

  lemma HiddenNext(s: KState, f: Frame, call: Call)
    requires Core(s) && Allowed(s, Syscall(f, call, false)) && Step(s, Syscall(f, call, false)).exit.None?
    ensures var e := Syscall(f, call, false);
            Affected(s, e).current == s.current && Step(s, e).current == NextOf(s, e)
  {
    BadStackStepIs(s, f, call);
    HiddenIs(s, f, call);
    YieldToAnyIs(Hidden(s, f), Saved(s, f));
    SchedulerDecides(Hidden(s, f));
    ReturnIs(Handled(Hidden(s, f), Saved(s, f), YIELD_TO_ANY));
  }

  lemma ScheduledNext(x: KState)
    requires x.WF() && x.next == NULL && x.current != NULL && x.exit.None? && IdsMatch(x.threads)
    requires LoadNextThread(x).exit.None?
    ensures LoadNextThread(x).current == ChooseNextThread(x.threads, x.current)
  {
    SchedulerDecides(x);
  }

  lemma ExitNext(s: KState, f: Frame)
    requires Core(s) && Allowed(s, ThreadExit(f)) && Step(s, ThreadExit(f)).exit.None?
    ensures var e := ThreadExit(f); Affected(s, e).current == s.current && Step(s, e).current == NextOf(s, e)
  {
    ExitStepIs(s, f);
    EndedIs(s, f);
    ScheduledNext(Ended(s, f));
  }

  lemma OthersNext(s: KState, e: Event)
    requires Core(s) && Allowed(s, e) && IsEntry(e) && !e.Syscall? && !e.ThreadExit? && Step(s, e).exit.None?
    ensures Affected(s, e).current == s.current && Step(s, e).current == NextOf(s, e)
  {
    if e.ThreadSwitch? || e.TimerTick? {
      ScheduledNext(Saved(s, e.frame));
    }
  }

  lemma StepRunsNext(s: KState, e: Event)
    requires Core(s) && Allowed(s, e) && IsEntry(e) && Step(s, e).exit.None?
    ensures Affected(s, e).current == s.current && Step(s, e).current == NextOf(s, e)
  {
    if IsCall(e) {
      CallNext(s, e.frame, e.call);
    } else if e.Syscall? {
      HiddenNext(s, e.frame, e.call);
    } else if e.ThreadExit? {
      ExitNext(s, e.frame);
    } else {
      OthersNext(s, e);
    }
  }

  /** Slot k, counted on from the current one round the array, is the first that can run. */
  ghost predicate IsNextInLine(s: KState, e: Event, k: nat)
    requires s.WF() && s.current != NULL
  {
    && s.current < k <= s.current + |s.threads| && CanRunAfter(s, e, k % |s.threads|)
    && forall j | s.current < j < k :: !CanRunAfter(s, e, j % |s.threads|)
  }

  /** The child if it can run, else the parent if it can run, else the next in line. */
  ghost predicate IsPreferred(s: KState, e: Event, i: int)
    requires s.WF() && s.current != NULL
  {
    var t := s.Current();
    if CanRunAfter(s, e, t.child) then i == t.child
    else if CanRunAfter(s, e, t.parent) then i == t.parent
    else exists k: nat :: i == k % |s.threads| && IsNextInLine(s, e, k)
  }

  /** Whenever the scheduler has to choose, it takes the running thread's child if that can run, else
      its parent if that can run, else the first thread after it that can; a yield to a thread is
      obeyed, and any other step goes on with the thread that runs. */
  lemma StepPrefersKin(s: KState, e: Event)
    requires Core(s) && Allowed(s, e) && Step(s, e).exit.None?
    ensures var r := Step(s, e).current;
            if !Schedules(s, e) then r == s.current
            else if HandsOver(s, e) then r == e.call.tid
            else IsPreferred(s, e, r)
  {
    if IsEntry(e) {
      StepRunsNext(s, e);
      if Schedules(s, e) && !HandsOver(s, e) {
        SchedulerSees(s, e);
        StepEndsKernelIff(s, e);
        SomeoneIsLeft(s, e, Affected(s, e));
        SeenChoice(s, e, Affected(s, e));
      }
    }
  }

  lemma SeenChoice(s: KState, e: Event, x: KState)
    requires s.WF() && s.current != NULL && SeesThreads(s, e, x) && SomeoneCanRun(x.threads)
    ensures IsPreferred(s, e, ChooseNextThread(x.threads, s.current))
  {
    ChoicePrefersKin(x.threads, s.current);
    if !CanRunAfter(s, e, s.Current().child) && !CanRunAfter(s, e, s.Current().parent) {
      var n, r := |s.threads|, ChooseNextThread(x.threads, s.current);
      var k :| s.current < k <= s.current + n && r == k % n && IsFirst(x.threads, s.current + 1, k);
      assert IsNextInLine(s, e, k);
    }
  }

  lemma SomeoneIsLeft(s: KState, e: Event, x: KState)
    requires Core(s) && Allowed(s, e) && StepExit(s, e).None? && SeesThreads(s, e, x)
    ensures SomeoneCanRun(x.threads)
  {
    if GivesUp(s, e) {
      assert OthersCanRun(s);
      var i :| i != s.current && CanSchedule(s.threads, i);
      assert CanRunAfter(s, e, i);
    } else {
      assert CanRunAfter(s, e, s.current);
    }
  }

  // ---- Run states

  /** A switch marks the chosen thread as running and parks the one that was. */
  ghost predicate StatesSwitched(s: KState, e: Event, r: KState)
    requires Allowed(s, e)
  {
    var x := Affected(s, e);
    && |r.threads| == |x.threads|
    && forall i | 0 <= i < |x.threads| ::
         r.threads[i].state == if Schedules(s, e) && i == r.current then Running
                               else if Schedules(s, e) && i == s.current && x.threads[i].state == Running then Suspended
                               else x.threads[i].state
  }

  lemma StepSwitchesStates(s: KState, e: Event)
    requires Core(s) && Allowed(s, e) && IsEntry(e) && Step(s, e).exit.None?
    ensures StatesSwitched(s, e, Step(s, e))
  {
    EntryParts(s, e);
    PartsSwitchStates(Affected(s, e), Schedules(s, e), Leaving(s, e), AnswerDepth(s, e));
  }

  lemma PartsSwitchStates(x: KState, runs: bool, z: KState, depth: int)
    requires Ends(x, runs, z, depth)
    ensures var r := Resumed(z);
            && |r.threads| == |x.threads| && r.current == z.next
            && forall i | 0 <= i < |x.threads| ::
                 r.threads[i].state == if runs && i == z.next then Running
                                       else if runs && i == x.current && x.threads[i].state == Running then Suspended
                                       else x.threads[i].state
  {
  }
}
