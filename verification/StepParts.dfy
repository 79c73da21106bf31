/**
 The parts of a kernel entry, in order: its effect, do_scheduler if it runs, the end of the syscall,
 and the return to user code.
 */
module StepParts {
  import opened Basics
  import opened Threads
  import opened Scheduler
  import opened Lifecycle
  import opened Rings
  import opened Steps
  import opened CoreInvariant
  import opened Effects
  import opened Choices

  /** The state the scheduler sees. */
  ghost function Affected(s: KState, e: Event): (r: KState)
    requires Allowed(s, e)
    ensures r.WF()
  {
    Effect(Entered(s, e), e)
  }

  /** do_scheduler runs in the step. */
  ghost predicate Schedules(s: KState, e: Event)
    requires Allowed(s, e)
  {
    match e
    case Syscall(_, call, stackOk) => !stackOk || RunsScheduler(s, call)
    case ThreadSwitch(_) => true
    case TimerTick(_) => true
    case ThreadExit(_) => true
    case _ => false
  }

  /** The kernel just before it restores the next thread's context. */
  ghost function Leaving(s: KState, e: Event): KState
    requires Allowed(s, e)
  {
    match e
    case Syscall(f, call, stackOk) => HandleSyscall(Saved(s, f), call, stackOk)
    case TimerControl(f) => Saved(s, f).(next := s.current)
    case _ => DoScheduler(Affected(s, e))
  }

  /** The kernel between the scheduler, if it ran on x, and the end of the syscall. */
  function Picked(x: KState, runs: bool, next: int): (r: KState)
    requires x.WF() && x.current != NULL && 0 <= next < |x.threads|
    ensures r.WF()
  {
    if runs then SwitchTo(x, next) else x.(next := x.current)
  }

  /** The end of a syscall writes no more to a stack than the result, into context `depth` of thread `who`. */
  ghost predicate OnlyAnswers(s: KState, r: KState, who: int, depth: int) {
    && |r.threads| == |s.threads|
    && forall i | 0 <= i < |s.threads| ::
         AnsweredAt(s.threads[i].frames, r.threads[i].frames, if i == who then depth else -1)
  }

  predicate AnsweredAt(frames: seq<Frame>, after: seq<Frame>, depth: int) {
    && |after| == |frames|
    && forall k | 0 <= k < |frames| :: after[k] == if k == depth then frames[k].(arg0 := after[k].arg0) else frames[k]
  }

  // ---- Calls

  lemma SchedulerSwitches(s: KState)
    requires s.WF() && DoScheduler(s).exit.None?
    ensures DoScheduler(s) == SwitchTo(s, DoScheduler(s).next) && 0 <= DoScheduler(s).next < |s.threads|
  {
  }

  /** A call is its effect, followed by a switch if it chose somebody. */
  ghost predicate SwitchesIfChosen(x: KState, d: KState) {
    x.WF() && if d.next == NULL then d == x else 0 <= d.next < |x.threads| && d == SwitchTo(x, d.next)
  }

  lemma YieldSwitches(s: KState, tid: int, kind: int)
    requires Core(s) && YieldCall(s, tid, kind).0.exit.None?
    ensures SwitchesIfChosen(s, YieldCall(s, tid, kind).0)
  {
    if kind == YIELD_ANY {
      SchedulerSwitches(s);
    } else if CanSchedule(s.threads, tid) {
      SchedulerSwitches(s.(next := tid));
    }
  }

  lemma CancelSwitches(s: KState, tid: int)
    requires Core(s) && CancelThread(s, tid).0.exit.None?
    ensures SwitchesIfChosen(CallEffect(s, ThreadCancel(tid)), CancelThread(s, tid).0)
  {
    CancelIs(s, tid);
    if (if tid == CURRENT_THREAD then s.Current().id else tid) == s.current {
      SchedulerSwitches(CallEffect(s, ThreadCancel(tid)));
    }
  }

  lemma CondVarSwitches(s: KState, op: CondVarOp, cv: Option<nat>)
    requires Core(s) && CallIsUsable(s, CondVar(op, cv)) && CondVarCall(s, op, cv).0.exit.None?
    ensures SwitchesIfChosen(CallEffect(s, CondVar(op, cv)), CondVarCall(s, op, cv).0)
  {
    if op == CvWait && cv.Some? {
      WaitKeepsThreads(s, cv.value);
      SchedulerSwitches(CallEffect(s, CondVar(op, cv)));
    } else {
      CondVarEffectIs(s, op, cv);
      CondVarStays(s, op, cv);
    }
  }

  lemma DispatchSwitches(s: KState, call: Call)
    requires Core(s) && CallIsUsable(s, call) && Dispatch(s, call).0.exit.None?
    ensures SwitchesIfChosen(CallEffect(s, call), Dispatch(s, call).0)
  {
    if call.Yield? {
      YieldSwitches(s, call.tid, call.kind);
    } else if call.ThreadWait? {
      SchedulerSwitches(CallEffect(s, call));
    } else if call.ThreadCancel? {
      CancelSwitches(s, call.tid);
    } else if call.CondVar? {
      CondVarSwitches(s, call.op, call.cv);
    } else {
      CallStays(s, call);
    }
  }

  lemma EffectStaysCurrent(s: KState, call: Call)
    requires Core(s) && CallIsUsable(s, call) && Dispatch(s, call).0.exit.None?
    ensures CallEffect(s, call).current == s.current && |CallEffect(s, call).threads| == |s.threads|
    ensures CallEffect(s, call).next == NULL
  {
    CallKeepsThreadCount(s, call);
    if call.ThreadCancel? {
      CancelIs(s, call.tid);
    } else if call.CondVar? {
      if call.op == CvWait && call.cv.Some? {
        WaitKeepsThreads(s, call.cv.value);
      } else {
        CondVarEffectIs(s, call.op, call.cv);
        CondVarStays(s, call.op, call.cv);
      }
    } else if !call.Yield? && !call.ThreadWait? {
      CallStays(s, call);
    }
  }

  lemma ResultAnswers(s: KState, depth: int, result: int)
    requires s.WF() && s.current != NULL
    ensures OnlyAnswers(s, WithResult(s, depth, result), s.current, depth)
  {
  }

  lemma FinishIsAnswered(s: KState, before: KState, call: Call, result: int)
    requires s.WF() && s.current != NULL && before.WF() && before.current != NULL
    ensures var r := FinishSyscall(s, before, call, result);
            var answered := if HasResult(call) then WithResult(s, |before.Current().frames| - 1, result) else s;
            && |r.threads| == |s.threads| && |answered.threads| == |s.threads|
            && forall i | 0 <= i < |s.threads| :: r.threads[i].frames == answered.threads[i].frames
  {
  }

  lemma FinishAnswers(s: KState, before: KState, call: Call, result: int)
    requires s.WF() && s.current != NULL && before.WF() && before.current != NULL
    ensures var r := FinishSyscall(s, before, call, result);
            && SameLives(if s.next == NULL then s.(next := s.current) else s, r)
            && OnlyAnswers(s, r, s.current, |before.Current().frames| - 1)
  {
    FinishIsAnswered(s, before, call, result);
    ResultAnswers(s, |before.Current().frames| - 1, result);
  }

  // ---- Entries

  /** From the effect x, after which the scheduler runs or not, to the end z of the syscall. */
  ghost predicate Ends(x: KState, runs: bool, z: KState, depth: int) {
    && x.WF() && z.WF() && x.current != NULL && 0 <= z.next < |x.threads|
    && (!runs ==> z.next == x.current)
    && SameLives(Picked(x, runs, z.next), z) && OnlyAnswers(Picked(x, runs, z.next), z, x.current, depth)
  }

  /** Only a syscall is answered, in the context saved on entry. */
  function AnswerDepth(s: KState, e: Event): int
    requires s.WF() && s.current != NULL
  {
    if e.Syscall? then |s.Current().frames| else -1
  }

  /** What the parts of a step have to do with each other. */
  ghost predicate FitTogether(s: KState, e: Event)
    requires Allowed(s, e)
  {
    && Affected(s, e).current == s.current && |Affected(s, e).threads| == |s.threads|
    && Ends(Affected(s, e), Schedules(s, e), Leaving(s, e), AnswerDepth(s, e))
    && Step(s, e) == Resumed(Leaving(s, e))
  }

  lemma CallEnds(s: KState, before: KState, call: Call)
    requires Core(s) && CallIsUsable(s, call) && before.WF() && before.current != NULL
    requires Handled(s, before, call).exit.None?
    ensures CallEffect(s, call).current == s.current && |CallEffect(s, call).threads| == |s.threads|
    ensures Ends(CallEffect(s, call), RunsScheduler(s, call), Handled(s, before, call), |before.Current().frames| - 1)
  {
    DispatchSwitches(s, call);
    CallDecides(s, call);
    EffectStaysCurrent(s, call);
    var done := Dispatch(s, call);
    FinishEnds(CallEffect(s, call), done.0, before, call, done.1);
  }

  /** Once the scheduler has run on x or not, what follows ends the syscall. */
  lemma FinishEnds(x: KState, d: KState, before: KState, call: Call, result: int)
    requires x.current != NULL && d.WF() && d.current == x.current && before.WF() && before.current != NULL
    requires SwitchesIfChosen(x, d)
    ensures Ends(x, d.next != NULL, FinishSyscall(d, before, call, result), |before.Current().frames| - 1)
  {
    FinishAnswers(d, before, call, result);
  }

  lemma ReturnIs(s: KState)
    requires s.WF() && s.next != NULL && s.exit.None?
    ensures LoadNextThread(s) == Resumed(s)
  {
  }

  lemma CallParts(s: KState, f: Frame, call: Call)
    requires Core(s) && Allowed(s, Syscall(f, call, true)) && Step(s, Syscall(f, call, true)).exit.None?
    ensures FitTogether(s, Syscall(f, call, true))
  {
    CallStepIs(s, f, call);
    CallEnds(CallEntry(s, f), Saved(s, f), call);
    CallEntryTouches(s, f);
    EntryDecidesSame(s, CallEntry(s, f), call);
    ReturnIs(Handled(CallEntry(s, f), Saved(s, f), call));
  }

  lemma HiddenEnds(s: KState, before: KState)
    requires s.WF() && s.next == NULL && s.current != NULL && before.WF() && before.current != NULL
    requires Handled(s, before, YIELD_TO_ANY).exit.None?
    ensures Ends(s, true, Handled(s, before, YIELD_TO_ANY), |before.Current().frames| - 1)
  {
    YieldToAnyIs(s, before);
    SchedulerSwitches(s);
    FinishAnswers(DoScheduler(s), before, YIELD_TO_ANY, if DoScheduler(s).next != s.current then 1 else 0);
  }

  lemma HiddenParts(s: KState, f: Frame, call: Call)
    requires Core(s) && Allowed(s, Syscall(f, call, false)) && Step(s, Syscall(f, call, false)).exit.None?
    ensures FitTogether(s, Syscall(f, call, false))
  {
    BadStackStepIs(s, f, call);
    HiddenEnds(Hidden(s, f), Saved(s, f));
    ReturnIs(Handled(Hidden(s, f), Saved(s, f), YIELD_TO_ANY));
    HiddenIs(s, f, call);
  }

  lemma HiddenIs(s: KState, f: Frame, call: Call)
    requires Core(s) && Allowed(s, Syscall(f, call, false)) && Step(s, Syscall(f, call, false)).exit.None?
    ensures var e := Syscall(f, call, false);
            Affected(s, e) == Hidden(s, f) && Leaving(s, e) == Handled(Hidden(s, f), Saved(s, f), YIELD_TO_ANY)
  {
  }

  lemma SchedulerEnds(x: KState)
    requires x.WF() && x.current != NULL && DoScheduler(x).exit.None?
    ensures forall depth :: Ends(x, true, DoScheduler(x), depth)
    ensures DoScheduler(x).next != NULL
  {
    SchedulerSwitches(x);
  }

  lemma ExitParts(s: KState, f: Frame)
    requires Core(s) && Allowed(s, ThreadExit(f)) && Step(s, ThreadExit(f)).exit.None?
    ensures FitTogether(s, ThreadExit(f))
  {
    ExitStepIs(s, f);
    EndedIs(s, f);
    SchedulerEnds(Ended(s, f));
  }

  lemma SwitchParts(s: KState, e: Event)
    requires Core(s) && Allowed(s, e) && (e.ThreadSwitch? || e.TimerTick?) && Step(s, e).exit.None?
    ensures FitTogether(s, e)
  {
    SchedulerEnds(Saved(s, e.frame));
  }

  /** Every kernel entry is its effect, then a switch if the scheduler runs, then the answer to the
      caller and the user's view, and then the return to user code. */
  lemma EntryParts(s: KState, e: Event)
    requires Core(s) && Allowed(s, e) && IsEntry(e) && Step(s, e).exit.None?
    ensures FitTogether(s, e)
  {
    match e {
      case Syscall(f, call, stackOk) => if stackOk { CallParts(s, f, call); } else { HiddenParts(s, f, call); }
      case ThreadSwitch(_) => SwitchParts(s, e);
      case TimerTick(_) => SwitchParts(s, e);
      case TimerControl(f) =>
      case ThreadExit(f) => ExitParts(s, f);
    }
  }
}
