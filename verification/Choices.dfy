/**
 What a kernel entry decides, read off the state before it: whether the scheduler runs, whom it
 chooses, and whether the kernel exits and with which status.
 */
module Choices {
  import opened Basics
  import opened Threads
  import opened Scheduler
  import opened Lifecycle
  import opened Rings
  import opened Steps
  import opened CoreInvariant
  import opened Effects

  /** The thread that a cancel is meant for. */
  function CancelledSlot(s: KState, tid: int): int
    requires s.WF() && s.current != NULL
  {
    if tid == CURRENT_THREAD then s.Current().id else tid
  }

  /** The calls by which the running thread gives up the processor for good, or until it is woken. */
  predicate Parks(s: KState, call: Call)
    requires s.WF() && s.current != NULL
  {
    || call.ThreadWait?
    || (call.ThreadCancel? && CancelledSlot(s, call.tid) == s.current)
    || (call.CondVar? && call.op == CvWait && call.cv.Some?)
  }

  predicate YieldsTo(s: KState, call: Call)
    requires s.WF()
  {
    call.Yield? && call.kind == YIELD_TO && CanSchedule(s.threads, call.tid)
  }

  predicate YieldsToAny(call: Call) {
    call.Yield? && call.kind == YIELD_ANY && call.tid == INVALID_THREAD
  }

  /** A yield of an unknown kind, or one to any thread that names a thread. */
  predicate IsBadYield(call: Call) {
    call.Yield? && if call.kind == YIELD_ANY then call.tid != INVALID_THREAD else call.kind != YIELD_TO
  }

  predicate RunsScheduler(s: KState, call: Call)
    requires s.WF() && s.current != NULL
  {
    Parks(s, call) || YieldsTo(s, call) || YieldsToAny(call)
  }

  /** The thread that the scheduler settles on when the call runs it. */
  ghost function ChosenBy(s: KState, call: Call): int
    requires s.WF() && s.current != NULL && CallIsUsable(s, call)
    requires CallEffect(s, call).current == s.current
  {
    if YieldsTo(s, call) then call.tid else ChooseNextThread(CallEffect(s, call).threads, s.current)
  }

  /** A thread other than the running one can run. */
  ghost predicate OthersCanRun(s: KState) {
    exists i :: i != s.current && CanSchedule(s.threads, i)
  }

  /** The call does not run the scheduler, or the scheduler chooses the caller. */
  predicate CallerRunsOn(s: KState, call: Call)
    requires s.WF() && s.current != NULL
  {
    && !Parks(s, call) && (YieldsTo(s, call) ==> call.tid == s.current)
    && (YieldsToAny(call) ==> ChooseNextThread(s.threads, s.current) == s.current)
  }

  /** The status with which a call ends the kernel. */
  ghost function CallExit(s: KState, call: Call): Option<int>
    requires s.WF() && s.current != NULL
  {
    if call.ExitKernel? then Some(call.status)
    else if call.UnknownCall? || IsBadYield(call) then Some(1)
    else if Parks(s, call) && !OthersCanRun(s) then Some(0)
    else None
  }

  /** The status with which a step ends the kernel. */
  ghost function StepExit(s: KState, e: Event): Option<int>
    requires s.WF() && s.current != NULL
  {
    match e
    case Syscall(_, call, stackOk) =>
      if stackOk then CallExit(s, call)
      else if s.config & KCFG_DESTROY_ON_STACK_ERR == 0 then Some(1)
      else if OthersCanRun(s) then None else Some(0)
    case ThreadExit(_) => if OthersCanRun(s) then None else Some(0)
    case _ => None
  }

  // ---- Calls

  /** The scheduler, run on x, settles on the first schedulable thread in turn, or ends the kernel. */
  lemma SchedulerDecides(x: KState)
    requires x.WF() && x.next == NULL && x.exit.None? && IdsMatch(x.threads)
    ensures var d := DoScheduler(x);
            && d.exit == (if SomeoneCanRun(x.threads) then None else Some(0))
            && d.next == if SomeoneCanRun(x.threads) then ChooseNextThread(x.threads, x.current) else NULL
  {
    SchedulerExitsIff(x);
  }

  /** A parked thread leaves the processor to the others. */
  lemma ParkedLeavesOthers(s: KState, x: KState)
    requires Core(s) && |x.threads| == |s.threads| && !CanSchedule(x.threads, s.current)
    requires forall i | 0 <= i < |s.threads| && i != s.current :: x.threads[i] == s.threads[i]
    ensures SomeoneCanRun(x.threads) <==> OthersCanRun(s)
  {
    if OthersCanRun(s) {
      var i :| i != s.current && CanSchedule(s.threads, i);
      assert CanSchedule(x.threads, i);
    }
    if SomeoneCanRun(x.threads) {
      var i :| CanSchedule(x.threads, i);
      assert CanSchedule(s.threads, i);
    }
  }

  /** What a call decides. */
  ghost predicate Decides(s: KState, call: Call, d: KState)
    requires s.WF() && s.current != NULL && CallIsUsable(s, call)
  {
    && CallEffect(s, call).current == s.current
    && d.exit == CallExit(s, call)
    && (d.exit.None? ==> d.next == if RunsScheduler(s, call) then ChosenBy(s, call) else NULL)
    && (d.exit.None? && RunsScheduler(s, call) ==> d.next != NULL)
  }

  lemma YieldAnyDecides(s: KState, call: Call)
    requires Core(s) && YieldsToAny(call)
    ensures Decides(s, call, DoScheduler(s))
  {
    assert CanSchedule(s.threads, s.current);
    SchedulerDecides(s);
  }

  lemma YieldToDecides(s: KState, call: Call)
    requires Core(s) && YieldsTo(s, call)
    ensures Decides(s, call, DoScheduler(s.(next := call.tid)))
  {
  }

  lemma YieldDecides(s: KState, call: Call)
    requires Core(s) && call.Yield?
    ensures Decides(s, call, YieldCall(s, call.tid, call.kind).0)
  {
    if YieldsToAny(call) {
      assert s.(next := NULL) == s;
      YieldAnyDecides(s, call);
    } else if YieldsTo(s, call) {
      YieldToDecides(s, call);
    }
  }

  lemma ParkDecides(s: KState, call: Call, x: KState)
    requires Core(s) && CallIsUsable(s, call) && Parks(s, call) && x == CallEffect(s, call)
    requires x.current == s.current && x.next == NULL && x.exit.None? && |x.threads| == |s.threads|
    requires IdsMatch(x.threads) && !CanSchedule(x.threads, s.current)
    requires forall i | 0 <= i < |s.threads| && i != s.current :: x.threads[i] == s.threads[i]
    ensures Decides(s, call, DoScheduler(x))
  {
    SchedulerDecides(x);
    ParkedLeavesOthers(s, x);
  }

  lemma CancelDecides(s: KState, call: Call)
    requires Core(s) && call.ThreadCancel?
    ensures Decides(s, call, CancelThread(s, call.tid).0)
  {
    CancelIs(s, call.tid);
    CancelChangesSlot(s, call.tid);
    if Parks(s, call) {
      ParkDecides(s, call, CallEffect(s, call));
    } else {
      CancelGoesOn(s, call.tid);
    }
  }

  lemma CancelGoesOn(s: KState, tid: int)
    requires Core(s)
    ensures CallEffect(s, ThreadCancel(tid)).exit.None?
  {
  }

  lemma WaitDecides(s: KState)
    requires Core(s)
    ensures Decides(s, ThreadWait, WaitThread(s))
  {
    ParkDecides(s, ThreadWait, CallEffect(s, ThreadWait));
  }

  lemma CondVarWaitDecides(s: KState, c: nat)
    requires Core(s) && c < |s.condVars|
    ensures Decides(s, CondVar(CvWait, Some(c)), CondVarCall(s, CvWait, Some(c)).0)
  {
    WaitKeepsThreads(s, c);
    ParkDecides(s, CondVar(CvWait, Some(c)), CallEffect(s, CondVar(CvWait, Some(c))));
  }

  /** No operation but a wait chooses a thread or ends the kernel. */
  lemma CondVarStays(s: KState, op: CondVarOp, cv: Option<nat>)
    requires Core(s) && CallIsUsable(s, CondVar(op, cv)) && (op != CvWait || cv.None?)
    ensures var d := CondVarCall(s, op, cv).0; d.next == NULL && d.exit.None?
  {
    if cv.Some? {
      SignalOnlyWakes(s, cv.value);
      BroadcastOnlyWakes(s, cv.value);
    }
  }

  lemma CondVarDecides(s: KState, call: Call)
    requires Core(s) && call.CondVar? && CallIsUsable(s, call)
    ensures Decides(s, call, CondVarCall(s, call.op, call.cv).0)
  {
    if Parks(s, call) {
      CondVarWaitDecides(s, call.cv.value);
    } else {
      CondVarEffectIs(s, call.op, call.cv);
      CondVarStays(s, call.op, call.cv);
    }
  }

  /** Calls that do not concern the scheduler. */
  predicate StaysOut(call: Call) {
    !call.Yield? && !call.ThreadWait? && !call.ThreadCancel? && !call.CondVar?
  }

  lemma QuietCallDecides(s: KState, call: Call)
    requires Core(s) && CallIsUsable(s, call) && StaysOut(call)
    ensures Decides(s, call, Dispatch(s, call).0)
  {
    CallStays(s, call);
    QuietCallExits(s, call);
  }

  lemma QuietCallExits(s: KState, call: Call)
    requires Core(s) && CallIsUsable(s, call) && StaysOut(call)
    ensures Dispatch(s, call).0.exit
            == if call.ExitKernel? then Some(call.status) else if call.UnknownCall? then Some(1) else None
  {
    if call.AddThread? {
      AddCallOnlyAdds(s, call);
    } else if call.SetThreadProperty? {
      SetPropertyKeeps(s, call.tid, call.value);
    }
  }

  /** Whether a call runs the scheduler, whom it chooses, and whether it ends the kernel can be read off
      the state before the call. */
  lemma CallDecides(s: KState, call: Call)
    requires Core(s) && CallIsUsable(s, call)
    ensures Decides(s, call, Dispatch(s, call).0)
  {
    if call.Yield? {
      YieldDecides(s, call);
    } else if call.ThreadWait? {
      WaitDecides(s);
    } else if call.ThreadCancel? {
      CancelDecides(s, call);
    } else if call.CondVar? {
      CondVarDecides(s, call);
    } else {
      QuietCallDecides(s, call);
    }
  }

  /** A call that parks its caller takes it off the list of threads that can run. */
  lemma ParkingStops(s: KState, call: Call)
    requires Core(s) && CallIsUsable(s, call) && Parks(s, call) && CallEffect(s, call).current == s.current
    ensures !CanSchedule(CallEffect(s, call).threads, s.current)
  {
    if call.ThreadCancel? {
      CancelChangesSlot(s, call.tid);
    } else if call.CondVar? {
      WaitKeepsThreads(s, call.cv.value);
    }
  }

  lemma CallerRunsOnIff(s: KState, call: Call)
    requires Core(s) && CallIsUsable(s, call) && CallExit(s, call).None?
    requires CallEffect(s, call).current == s.current && (RunsScheduler(s, call) ==> ChosenBy(s, call) != NULL)
    ensures CallerRunsOn(s, call) <==> RunsScheduler(s, call) ==> ChosenBy(s, call) == s.current
  {
    if Parks(s, call) {
      ParkingStops(s, call);
    }
  }

  // ---- Steps

  /** Saving the caller's context changes nothing that a decision depends on. */
  lemma EntryDecidesSame(s: KState, x: KState, call: Call)
    requires s.WF() && s.current != NULL && OnlyTouched(s, x) && x.WF() && x.current == s.current
    requires forall i | 0 <= i < |s.threads| :: x.threads[i].state == s.threads[i].state
    ensures RunsScheduler(x, call) <==> RunsScheduler(s, call)
    ensures OthersCanRun(x) <==> OthersCanRun(s)
    ensures CallExit(x, call) == CallExit(s, call)
    ensures CallerRunsOn(x, call) <==> CallerRunsOn(s, call)
  {
    assert forall i :: CanSchedule(x.threads, i) <==> CanSchedule(s.threads, i);
    SameChoice(s.threads, x.threads, s.current);
    SameSchedulableDecidesSame(s, x, call);
  }

  lemma SameSchedulableDecidesSame(s: KState, x: KState, call: Call)
    requires s.WF() && x.WF() && x.current == s.current != NULL && x.Current().id == s.Current().id
    requires forall i :: CanSchedule(x.threads, i) <==> CanSchedule(s.threads, i)
    requires ChooseNextThread(x.threads, x.current) == ChooseNextThread(s.threads, s.current)
    ensures RunsScheduler(x, call) <==> RunsScheduler(s, call)
    ensures OthersCanRun(x) <==> OthersCanRun(s)
    ensures CallExit(x, call) == CallExit(s, call)
    ensures CallerRunsOn(x, call) <==> CallerRunsOn(s, call)
  {
    SameIdParksSame(s, x, call);
    assert OthersCanRun(x) <==> OthersCanRun(s);
  }

  lemma SameIdParksSame(s: KState, x: KState, call: Call)
    requires s.WF() && x.WF() && x.current == s.current != NULL && x.Current().id == s.Current().id
    requires forall i :: CanSchedule(x.threads, i) <==> CanSchedule(s.threads, i)
    ensures Parks(x, call) <==> Parks(s, call)
    ensures YieldsTo(x, call) <==> YieldsTo(s, call)
  {
  }

  lemma SameChoice(ts: seq<Thread>, us: seq<Thread>, current: int)
    requires 0 <= current < |ts| == |us| && us[current].child == ts[current].child
    requires us[current].parent == ts[current].parent
    requires forall i :: CanSchedule(us, i) <==> CanSchedule(ts, i)
    ensures ChooseNextThread(us, current) == ChooseNextThread(ts, current)
  {
    SameSearch(ts, us, SearchStart(ts, current), |ts|);
  }

  lemma {:induction false} SameSearch(ts: seq<Thread>, us: seq<Thread>, start: nat, count: nat)
    requires 0 < |ts| == |us| && forall i :: CanSchedule(us, i) <==> CanSchedule(ts, i)
    ensures FirstSchedulable(us, start, count) == FirstSchedulable(ts, start, count)
    decreases count
  {
    if count == 0 {
    } else {
      SameSearch(ts, us, start + 1, count - 1);
    }
  }

  lemma CallEntryTouches(s: KState, f: Frame)
    requires s.WF() && s.current != NULL
    ensures var x := CallEntry(s, f);
            && OnlyTouched(s, x) && x.current == s.current
            && forall i | 0 <= i < |s.threads| :: x.threads[i].state == s.threads[i].state
  {
  }

  lemma HandledExits(s: KState, before: KState, call: Call)
    requires Core(s) && CallIsUsable(s, call) && before.WF() && before.current != NULL
    ensures var r := Handled(s, before, call);
            r.exit == CallExit(s, call) && (r.exit.None? ==> LoadNextThread(r).exit.None?)
  {
    CallDecides(s, call);
  }

  lemma CallStepExits(s: KState, f: Frame, call: Call)
    requires Core(s) && Allowed(s, Syscall(f, call, true))
    ensures Step(s, Syscall(f, call, true)).exit == CallExit(s, call)
  {
    HandledStepIs(s, f, call);
    HandledExits(CallEntry(s, f), Saved(s, f), call);
    CallEntryTouches(s, f);
    EntryDecidesSame(s, CallEntry(s, f), call);
  }

  lemma HiddenIsParked(s: KState, f: Frame)
    requires Core(s)
    ensures var x := Hidden(s, f);
            && x.next == NULL && x.exit.None? && IdsMatch(x.threads) && !CanSchedule(x.threads, s.current)
            && (SomeoneCanRun(x.threads) <==> OthersCanRun(s))
  {
    var x := Hidden(s, f);
    if OthersCanRun(s) {
      var i :| i != s.current && CanSchedule(s.threads, i);
      assert CanSchedule(x.threads, i);
    }
    if SomeoneCanRun(x.threads) {
      var i :| CanSchedule(x.threads, i);
      assert i != s.current && CanSchedule(s.threads, i);
    }
  }

  lemma HiddenStepExits(s: KState, f: Frame, call: Call)
    requires Core(s) && Allowed(s, Syscall(f, call, false))
    ensures Step(s, Syscall(f, call, false)).exit == StepExit(s, Syscall(f, call, false))
  {
    HiddenStepIs(s, f, call);
    HiddenIsParked(s, f);
    SchedulerDecides(Hidden(s, f));
    YieldToAnyIs(Hidden(s, f), Saved(s, f));
  }

  lemma SwitchNeverEnds(s: KState, f: Frame)
    requires Core(s)
    ensures LoadNextThread(Saved(s, f)).exit.None?
  {
    assert CanSchedule(Saved(s, f).threads, s.current);
    SchedulerDecides(Saved(s, f));
  }

  lemma EndedIsParked(s: KState, f: Frame)
    requires Core(s)
    ensures var x := Ended(s, f);
            && x.next == NULL && x.exit.None? && IdsMatch(x.threads) && x.current == s.current
            && (SomeoneCanRun(x.threads) <==> OthersCanRun(s))
  {
    EndedIs(s, f);
    ParkedLeavesOthers(s, Ended(s, f));
  }

  lemma ExitStepExits(s: KState, f: Frame)
    requires Core(s) && Allowed(s, ThreadExit(f))
    ensures Step(s, ThreadExit(f)).exit == StepExit(s, ThreadExit(f))
  {
    ExitStepIs(s, f);
    EndedIsParked(s, f);
    SchedulerDecides(Ended(s, f));
  }

  /** A step ends the kernel exactly in these cases and with this status; in particular neither a
      thread switch nor the timer ever does, and status 0 means that no thread can run. */
  lemma StepEndsKernelIff(s: KState, e: Event)
    requires Core(s) && Allowed(s, e)
    ensures Step(s, e).exit == StepExit(s, e)
  {
    match e {
      case Syscall(f, call, stackOk) => if stackOk { CallStepExits(s, f, call); } else { HiddenStepExits(s, f, call); }
      case ThreadSwitch(f) => SwitchNeverEnds(s, f);
      case TimerTick(f) => SwitchNeverEnds(s, f);
      case ThreadExit(f) => ExitStepExits(s, f);
      case _ =>
    }
  }

  /** The kernel has ended after a run exactly if the run's last step ended it, in one of these cases. */
  lemma RunEndsKernelIff(s: KState, es: seq<Event>)
    requires Core(s) && IsRun(s, es) && es != []
    ensures var front := es[..|es| - 1];
            && IsRun(s, front) && Core(Run(s, front)) && Allowed(Run(s, front), es[|es| - 1])
            && Run(s, es) == Step(Run(s, front), es[|es| - 1])
            && Run(s, es).exit == StepExit(Run(s, front), es[|es| - 1])
  {
    LastStep(s, es);
    EveryRunKeepsCore(s, es[..|es| - 1]);
    StepEndsKernelIff(Run(s, es[..|es| - 1]), es[|es| - 1]);
  }

  /** A run is what comes before its last step, and that step. */
  lemma {:induction false} LastStep(s: KState, es: seq<Event>)
    requires IsRun(s, es) && es != []
    ensures var front := es[..|es| - 1];
            && IsRun(s, front) && Allowed(Run(s, front), es[|es| - 1])
            && Run(s, es) == Step(Run(s, front), es[|es| - 1])
    decreases |es|
  {
    var r, rest := Step(s, es[0]), es[1..];
    if rest == [] {
      assert es[..|es| - 1] == [];
    } else {
      LastStep(r, rest);
      FrontOfRun(s, es);
    }
  }

  lemma FrontOfRun(s: KState, es: seq<Event>)
    requires IsRun(s, es) && |es| > 1 && IsRun(Step(s, es[0]), es[1..][..|es| - 2])
    ensures IsRun(s, es[..|es| - 1]) && Run(s, es[..|es| - 1]) == Run(Step(s, es[0]), es[1..][..|es| - 2])
  {
    assert es[..|es| - 1][1..] == es[1..][..|es| - 2];
  }
}
