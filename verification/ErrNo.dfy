/** The single errno slot behaves as one private errno per thread. */
module ErrNo {
  import opened Basics
  import opened Threads
  import opened Scheduler
  import opened Lifecycle
  import opened Rings
  import opened Steps
  import opened CoreInvariant
  import opened Effects
  import opened Choices
  import opened StepParts

  /** Thread i's errno while thread `who` is the running one. */
  function ErrNoFor(s: KState, who: int, i: int): int
    requires 0 <= i < |s.threads|
  {
    if i == who then s.info.errNo else s.threads[i].errNo
  }

  /** Thread i's own errno: the shared slot while it runs, its record otherwise. */
  function ErrNoOf(s: KState, i: int): int
    requires 0 <= i < |s.threads|
  {
    ErrNoFor(s, s.current, i)
  }

  /** The error a call reports to its caller, 0 for none. */
  function ReportedError(s: KState, call: Call): int
    requires s.WF() && s.current != NULL
  {
    match call
    case AddThread(_, _, _, _, flags) =>
      if flags.None? then E_INVALID_ARGS
      else if flags.value.isFile && !HasNoPermission(s, TPERM_CREATE)
              && (forall p | 0 <= p < |s.pages| :: s.pages[p].refCount != 0) then E_NO_PAGE
      else 0
    case GetThreadProperty(tid, p, hasResult) =>
      if !hasResult then E_INVALID_ARGS
      else if !IsValidThread(s.threads, ResolvedTid(s, tid)) then E_INVALID_ID
      else if p.PropPendingSignals? || p.PropSignalHandler? || p.PropUnknown? then E_INVALID_ARGS
      else 0
    case SetThreadProperty(tid, value) =>
      if value.None? then E_INVALID_ARGS
      else if HasNoPermission(s, if tid == CURRENT_THREAD then TPERM_TCONFIG else TPERM_TCONFIG_OTHER) then E_PERM
      else if !IsValidThread(s.threads, ResolvedTid(s, tid)) then E_INVALID_ID
      else if value.value.PropParent? || value.value.PropState? || value.value.PropUnknown? then E_INVALID_ARGS
      else 0
    case GetMsg(hasPointers) => if hasPointers then 0 else E_INVALID_ARGS
    case CondVar(op, cv) => if op == CvUnknown || cv.None? then E_INVALID_ARGS else 0
    case HostCall(errNo, _) => errNo
    case _ => 0
  }

  /** The running thread's errno after a step: what it wrote, what its call reported, or as before. */
  function OwnErrNo(s: KState, e: Event): int
    requires s.WF() && s.current != NULL
  {
    if e.UserErrno? then e.errNo
    else if e.Syscall? && e.stackOk && ReportedError(s, e.call) != 0 then ReportedError(s, e.call)
    else s.info.errNo
  }

  // ---- Switching

  lemma SwitchKeepsErrNos(s: KState, next: int, i: int)
    requires s.WF() && s.current != NULL && 0 <= i < |s.threads| && 0 <= next < |s.threads|
    ensures |SwitchTo(s, next).threads| == |s.threads| && ErrNoFor(SwitchTo(s, next), next, i) == ErrNoOf(s, i)
  {
  }

  lemma SchedulerKeepsErrNos(s: KState, i: int)
    requires s.WF() && s.current != NULL && 0 <= i < |s.threads| && DoScheduler(s).exit.None?
    ensures var r := DoScheduler(s); |r.threads| == |s.threads| && ErrNoFor(r, r.next, i) == ErrNoOf(s, i)
  {
    SwitchKeepsErrNos(s, Target(s), i);
  }

  lemma LoadNextKeepsErrNos(s: KState, i: int)
    requires s.WF() && s.current != NULL && 0 <= i < |s.threads| && LoadNextThread(s).exit.None?
    ensures var r := LoadNextThread(s); |r.threads| == |s.threads| && ErrNoOf(r, i) == ErrNoFor(s, Chosen(s), i)
  {
    if s.next == NULL {
      SchedulerKeepsErrNos(s, i);
    }
  }

  // ---- Calls: r is the state after, `own` the caller's errno in it

  /** Everybody's errno is kept but the caller's, which is `own`, and that of a newly taken slot. */
  ghost predicate ErrNosKept(s: KState, r: KState, who: int, own: int) {
    && |r.threads| == |s.threads|
    && forall i | 0 <= i < |s.threads| && (i == s.current || !IsReusable(s.threads[i])) ::
         ErrNoFor(r, who, i) == if i == s.current then own else ErrNoOf(s, i)
  }

  lemma SchedulerKeepsAll(s: KState, t: KState)
    requires s.WF() && s.current != NULL && t.WF() && t.current == s.current && |t.threads| == |s.threads|
    requires t.info == s.info && forall i | 0 <= i < |s.threads| :: t.threads[i].errNo == s.threads[i].errNo
    requires DoScheduler(t).exit.None?
    ensures ErrNosKept(s, DoScheduler(t), DoScheduler(t).next, s.info.errNo)
  {
    forall i | 0 <= i < |s.threads|
      ensures |DoScheduler(t).threads| == |s.threads|
      ensures ErrNoFor(DoScheduler(t), DoScheduler(t).next, i) == ErrNoOf(s, i)
    {
      SchedulerKeepsErrNos(t, i);
    }
  }

  lemma CondVarKeepsErrNos(s: KState, op: CondVarOp, cv: Option<nat>)
    requires Core(s) && CallIsUsable(s, CondVar(op, cv)) && CondVarCall(s, op, cv).0.exit.None?
    ensures var r := CondVarCall(s, op, cv).0;
            ErrNosKept(s, r, Chosen(r), OwnErrNo(s, Syscall(s.cpu, CondVar(op, cv), true)))
  {
    if op == CvBroadcast && cv.Some? {
      BroadcastOnlyWakes(s, cv.value);
    } else if op == CvWait && cv.Some? {
      WaitKeepsErrNos(s, cv.value);
    }
  }

  lemma WaitKeepsErrNos(s: KState, c: nat)
    requires Core(s) && c < |s.condVars| && CondVarCall(s, CvWait, Some(c)).0.exit.None?
    ensures var r := CondVarCall(s, CvWait, Some(c)).0; ErrNosKept(s, r, Chosen(r), s.info.errNo)
  {
    WaitKeepsThreads(s, c);
    SchedulerKeepsAll(s, CallEffect(s, CondVar(CvWait, Some(c))));
  }

  lemma YieldKeepsErrNos(s: KState, tid: int, kind: int)
    requires Core(s) && YieldCall(s, tid, kind).0.exit.None?
    ensures var r := YieldCall(s, tid, kind).0; ErrNosKept(s, r, Chosen(r), s.info.errNo)
  {
    if kind == YIELD_ANY {
      SchedulerKeepsAll(s, s);
    } else if CanSchedule(s.threads, tid) {
      SchedulerKeepsAll(s, s.(next := tid));
    }
  }

  lemma CancelKeepsErrNos(s: KState, tid: int)
    requires Core(s) && CancelThread(s, tid).0.exit.None?
    ensures var r := CancelThread(s, tid).0; ErrNosKept(s, r, Chosen(r), s.info.errNo)
  {
    var i := if tid == CURRENT_THREAD then s.Current().id else tid;
    if IsValidThread(s.threads, i) && i == s.Current().id {
      SchedulerKeepsAll(s, CancelSlot(s, i));
    }
  }

  lemma AddKeepsErrNos(s: KState, call: Call)
    requires Core(s) && call.AddThread?
    ensures var r := Dispatch(s, call).0; ErrNosKept(s, r, Chosen(r), OwnErrNo(s, Syscall(s.cpu, call, true)))
  {
    AddCallOnlyAdds(s, call);
    AddReports(s, call);
  }

  lemma AddReports(s: KState, call: Call)
    requires Core(s) && call.AddThread?
    ensures Dispatch(s, call).0.next == NULL && Dispatch(s, call).0.current == s.current
    ensures Dispatch(s, call).0.info.errNo == OwnErrNo(s, Syscall(s.cpu, call, true))
  {
    var p := FindFreeBackingPage(s.pages, 0);
    assert p == INVALID_PAGE <==> forall q | 0 <= q < |s.pages| :: s.pages[q].refCount != 0;
  }

  lemma SetPropertyKeepsErrNos(s: KState, call: Call)
    requires Core(s) && call.SetThreadProperty?
    ensures var r := SetPropertyCall(s, call.tid, call.value).0;
            ErrNosKept(s, r, Chosen(r), OwnErrNo(s, Syscall(s.cpu, call, true)))
  {
    SetPropertyKeeps(s, call.tid, call.value);
  }

  lemma GetPropertyKeepsErrNos(s: KState, call: Call)
    requires Core(s) && call.GetThreadProperty?
    ensures var r := Dispatch(s, call).0; ErrNosKept(s, r, Chosen(r), OwnErrNo(s, Syscall(s.cpu, call, true)))
  {
  }

  lemma MailKeepsErrNos(s: KState, call: Call)
    requires Core(s) && (call.SendMsg? || call.GetMsg? || call.ThreadWake?)
    ensures var r := Dispatch(s, call).0; ErrNosKept(s, r, Chosen(r), OwnErrNo(s, Syscall(s.cpu, call, true)))
  {
  }

  lemma QuietCallKeepsErrNos(s: KState, call: Call)
    requires Core(s) && CallIsUsable(s, call) && Dispatch(s, call).0.exit.None? && IsPlain(call)
    requires !call.Yield? && !call.CondVar? && !call.ThreadWait?
    ensures var r := Dispatch(s, call).0; ErrNosKept(s, r, Chosen(r), OwnErrNo(s, Syscall(s.cpu, call, true)))
  {
    if call.GetThreadProperty? {
      GetPropertyKeepsErrNos(s, call);
    } else if call.SendMsg? || call.GetMsg? || call.ThreadWake? {
      MailKeepsErrNos(s, call);
    } else {
      OtherCallKeepsErrNos(s, call);
    }
  }

  lemma OtherCallKeepsErrNos(s: KState, call: Call)
    requires Core(s) && CallIsUsable(s, call)
    requires || call.HostCall? || call.SetKernelConfig? || call.Malloc? || call.Realloc? || call.Free?
             || call.ExitKernel? || call.UnknownCall?
    ensures var r := Dispatch(s, call).0; ErrNosKept(s, r, Chosen(r), OwnErrNo(s, Syscall(s.cpu, call, true)))
  {
  }

  /** Inside the call, restart clears only the record, which the end of the syscall overwrites. */
  lemma RestartKeepsErrNos(s: KState, call: Call)
    requires Core(s) && CallIsUsable(s, call) && call.Restart?
    ensures var r := Dispatch(s, call).0;
            r.next == NULL && r.info == s.info && ErrNosKept(s, r, Chosen(r), s.info.errNo)
  {
    RestartChangesCurrent(s, call);
  }

  lemma DispatchKeepsErrNos(s: KState, call: Call)
    requires Core(s) && CallIsUsable(s, call) && Dispatch(s, call).0.exit.None?
    ensures var r := Dispatch(s, call).0; ErrNosKept(s, r, Chosen(r), OwnErrNo(s, Syscall(s.cpu, call, true)))
  {
    if call.AddThread? {
      AddKeepsErrNos(s, call);
    } else if call.SetThreadProperty? {
      SetPropertyKeepsErrNos(s, call);
    } else if call.Restart? {
      RestartKeepsErrNos(s, call);
    } else if call.ThreadCancel? {
      CancelKeepsErrNos(s, call.tid);
    } else if call.Yield? {
      YieldKeepsErrNos(s, call.tid, call.kind);
    } else if call.ThreadWait? {
      SchedulerKeepsAll(s, CallEffect(s, call));
    } else if call.CondVar? {
      CondVarKeepsErrNos(s, call.op, call.cv);
    } else {
      QuietCallKeepsErrNos(s, call);
    }
  }

  lemma FinishKeepsErrNos(s: KState, before: KState, call: Call, result: int, i: int)
    requires Settled(s) && s.current != NULL && before.WF() && before.current != NULL && 0 <= i < |s.threads|
    requires !LogsErrNo(before)
    ensures var r := FinishSyscall(s, before, call, result);
            r.next == Chosen(s) && |r.threads| == |s.threads| && ErrNoFor(r, r.next, i) == ErrNoFor(s, Chosen(s), i)
  {
    if s.next == NULL {
      AnswerKeepsErrNo(s, |before.Current().frames| - 1, result, i);
    }
  }

  lemma AnswerKeepsErrNo(s: KState, depth: int, result: int, i: int)
    requires s.WF() && s.current != NULL && 0 <= i < |s.threads|
    ensures var r := WithResult(s, depth, result);
            && |r.threads| == |s.threads| && r.current == s.current && r.info == s.info
            && r.threads[i].errNo == s.threads[i].errNo
  {
  }

  lemma SyscallKeepsErrNos(s: KState, call: Call)
    requires Core(s) && CallIsUsable(s, call) && HandleSyscall(s, call, true).exit.None? && !LogsErrNo(s)
    ensures var r := HandleSyscall(s, call, true);
            r.next != NULL && ErrNosKept(s, r, r.next, OwnErrNo(s, Syscall(s.cpu, call, true)))
  {
    DispatchKeepsErrNos(s, call);
    DispatchSettles(s, call);
    var done := Dispatch(s, call);
    forall i | 0 <= i < |s.threads|
      ensures var r := FinishSyscall(done.0, s, call, done.1);
              && |r.threads| == |s.threads| && r.next == Chosen(done.0)
              && ErrNoFor(r, r.next, i) == ErrNoFor(done.0, Chosen(done.0), i)
    {
      FinishKeepsErrNos(done.0, s, call, done.1, i);
    }
  }

  lemma StackErrorKeepsErrNos(s: KState, call: Call)
    requires Core(s) && CallIsUsable(s, call) && HandleSyscall(s, call, false).exit.None? && !LogsErrNo(s)
    ensures var r := HandleSyscall(s, call, false); r.next != NULL && ErrNosKept(s, r, r.next, s.info.errNo)
  {
    var entered := Invalidated(s);
    SchedulerKeepsAll(s, entered);
    YieldSettles(entered, INVALID_THREAD, YIELD_ANY);
    var done := YieldCall(entered, INVALID_THREAD, YIELD_ANY);
    forall i | 0 <= i < |s.threads|
      ensures var r := FinishSyscall(done.0, s, YIELD_TO_ANY, done.1);
              && |r.threads| == |s.threads| && r.next == Chosen(done.0)
              && ErrNoFor(r, r.next, i) == ErrNoFor(done.0, Chosen(done.0), i)
    {
      FinishKeepsErrNos(done.0, s, YIELD_TO_ANY, done.1, i);
    }
  }

  // ---- Steps

  /** While failed calls are not logged, a step changes no errno but the running thread's own, and
      that one only as the thread's own code or call says; a slot taken by a new thread aside. */
  lemma ErrNoIsPrivate(s: KState, e: Event)
    requires Core(s) && Allowed(s, e) && Step(s, e).exit.None? && (e.Syscall? ==> !LogsErrNo(s))
    ensures ErrNosKept(s, Step(s, e), Step(s, e).current, OwnErrNo(s, e))
  {
    if e.Syscall? && e.stackOk {
      CallStepKeepsErrNos(s, e.frame, e.call);
    } else if e.Syscall? {
      BadStackStepKeepsErrNos(s, e.frame, e.call);
    } else if e.ThreadExit? {
      ExitKeepsErrNos(s, e.frame);
    } else {
      OtherEventKeepsErrNos(s, e);
    }
  }

  lemma SwitchStepKeepsErrNos(s: KState, f: Frame, t: KState)
    requires Core(s) && (t == Saved(s, f) || t == Saved(s, f).(next := s.current)) && LoadNextThread(t).exit.None?
    ensures ErrNosKept(s, LoadNextThread(t), LoadNextThread(t).current, s.info.errNo)
  {
    LoadKeepsAll(s, Saved(s, f), t, s.info.errNo);
  }

  lemma OtherEventKeepsErrNos(s: KState, e: Event)
    requires Core(s) && Allowed(s, e) && Step(s, e).exit.None? && !e.Syscall? && !e.ThreadExit?
    ensures ErrNosKept(s, Step(s, e), Step(s, e).current, OwnErrNo(s, e))
  {
    match e {
      case ThreadSwitch(f) => SwitchStepKeepsErrNos(s, f, Saved(s, f));
      case TimerTick(f) => SwitchStepKeepsErrNos(s, f, Saved(s, f));
      case TimerControl(f) => SwitchStepKeepsErrNos(s, f, Saved(s, f).(next := s.current));
      case _ =>
    }
  }

  lemma CallStepKeepsErrNos(s: KState, f: Frame, call: Call)
    requires Core(s) && Allowed(s, Syscall(f, call, true)) && Step(s, Syscall(f, call, true)).exit.None?
    requires !LogsErrNo(s)
    ensures var r := Step(s, Syscall(f, call, true)); ErrNosKept(s, r, r.current, OwnErrNo(s, Syscall(f, call, true)))
  {
    var saved := Saved(s, f);
    CallStepReturns(s, f, call);
    SyscallKeepsErrNos(saved, call);
    SavedReportsSame(s, f, call);
    SavedKeepsRecords(s, f);
    LoadKeepsAll(s, saved, HandleSyscall(saved, call, true), OwnErrNo(s, Syscall(f, call, true)));
  }

  lemma CallStepReturns(s: KState, f: Frame, call: Call)
    requires Core(s) && Allowed(s, Syscall(f, call, true)) && Step(s, Syscall(f, call, true)).exit.None?
    ensures Core(Saved(s, f)) && CallIsUsable(Saved(s, f), call)
    ensures var t := HandleSyscall(Saved(s, f), call, true);
            t.exit.None? && t.current != NULL && Step(s, Syscall(f, call, true)) == LoadNextThread(t)
  {
    SavedKeepsCore(s, f, call);
  }

  lemma SavedKeepsRecords(s: KState, f: Frame)
    requires s.WF() && s.current != NULL
    ensures var x := Saved(s, f);
            && x.info == s.info && x.current == s.current && |x.threads| == |s.threads|
            && forall i | 0 <= i < |s.threads| ::
                 x.threads[i].errNo == s.threads[i].errNo && IsReusable(x.threads[i]) == IsReusable(s.threads[i])
  {
  }

  lemma SavedReportsSame(s: KState, f: Frame, call: Call)
    requires Core(s)
    ensures OwnErrNo(Saved(s, f), Syscall(s.cpu, call, true)) == OwnErrNo(s, Syscall(f, call, true))
    ensures Saved(s, f).info == s.info && !LogsErrNo(s) ==> !LogsErrNo(Saved(s, f))
  {
    var saved := Saved(s, f);
    assert forall tid :: IsValidThread(saved.threads, tid) <==> IsValidThread(s.threads, tid);
    SameRightsReportSame(s, saved, call);
  }

  lemma SameRightsReportSame(s: KState, x: KState, call: Call)
    requires s.WF() && x.WF() && s.current == x.current != NULL && x.pages == s.pages
    requires x.Current().id == s.Current().id && x.Current().permissions == s.Current().permissions
    requires forall tid :: IsValidThread(x.threads, tid) <==> IsValidThread(s.threads, tid)
    ensures ReportedError(x, call) == ReportedError(s, call)
  {
    if call.AddThread? {
    } else if call.SetThreadProperty? {
      assert ResolvedTid(x, call.tid) == ResolvedTid(s, call.tid);
    } else if call.GetThreadProperty? {
      assert ResolvedTid(x, call.tid) == ResolvedTid(s, call.tid);
    }
  }

  lemma BadStackStepKeepsErrNos(s: KState, f: Frame, call: Call)
    requires Core(s) && Allowed(s, Syscall(f, call, false)) && Step(s, Syscall(f, call, false)).exit.None?
    requires !LogsErrNo(s)
    ensures var r := Step(s, Syscall(f, call, false)); ErrNosKept(s, r, r.current, s.info.errNo)
  {
    var saved := Saved(s, f);
    SavedKeepsCore(s, f, call);
    StackErrorKeepsErrNos(saved, call);
    LoadKeepsAll(s, saved, HandleSyscall(saved, call, false), s.info.errNo);
  }

  lemma LoadKeepsAll(s: KState, saved: KState, t: KState, own: int)
    requires s.WF() && s.current != NULL && t.WF() && t.current != NULL && LoadNextThread(t).exit.None?
    requires |saved.threads| == |s.threads| && saved.current == s.current && saved.info == s.info
    requires forall i | 0 <= i < |s.threads| ::
               saved.threads[i].errNo == s.threads[i].errNo && IsReusable(saved.threads[i]) == IsReusable(s.threads[i])
    requires ErrNosKept(saved, t, Chosen(t), own)
    ensures ErrNosKept(s, LoadNextThread(t), LoadNextThread(t).current, own)
  {
    ReturnKeepsErrNos(s, saved, t, own);
  }

  lemma ExitKeepsErrNos(s: KState, f: Frame)
    requires Core(s) && Allowed(s, ThreadExit(f)) && Step(s, ThreadExit(f)).exit.None?
    ensures ErrNosKept(s, Step(s, ThreadExit(f)), Step(s, ThreadExit(f)).current, s.info.errNo)
  {
    ExitStepIs(s, f);
    EndingKeepsErrNos(s, f);
    SavedKeepsRecords(s, f);
    LoadKeepsAll(s, Saved(s, f), Ended(s, f), s.info.errNo);
  }

  lemma EndingKeepsErrNos(s: KState, f: Frame)
    requires Core(s)
    ensures var x := Ended(s, f); x.current == s.current && ErrNosKept(Saved(s, f), x, Chosen(x), s.info.errNo)
  {
    EndedIs(s, f);
  }

  // ---- Runs

  /** What a thread expects its errno to be after a run: the last value it wrote itself or one of
      its own calls reported. */
  ghost function ExpectedErrNo(s: KState, es: seq<Event>, i: int, errNo: int): int
    requires IsRun(s, es)
    decreases |es|
  {
    if es == [] then errNo
    else
      var own := if s.current == i then OwnErrNo(s.WithErrNo(errNo), es[0]) else errNo;
      ExpectedErrNo(Step(s, es[0]), es[1..], i, own)
  }

  /** Slot i holds a thread, and failed calls are not logged, whenever user code runs. */
  ghost predicate LivesQuietly(s: KState, es: seq<Event>, i: int)
    requires IsRun(s, es) && 0 <= i
    decreases |es|
  {
    && i < |s.threads| && !IsReusable(s.threads[i]) && !LogsErrNo(s)
    && (es != [] ==> LivesQuietly(Step(s, es[0]), es[1..], i))
  }

  /** Across all interleavings a thread's errno is what it would be if it were alone. */
  lemma {:induction false} EveryRunKeepsErrNoPrivate(s: KState, es: seq<Event>, i: int)
    requires Core(s) && IsRun(s, es) && Run(s, es).exit.None? && 0 <= i && LivesQuietly(s, es, i)
    ensures i < |Run(s, es).threads|
    ensures ErrNoOf(Run(s, es), i) == ExpectedErrNo(s, es, i, ErrNoOf(s, i))
    decreases |es|
  {
    if es == [] {
    } else {
      var r := Step(s, es[0]);
      RunGoesOn(s, es);
      StepKeepsCore(s, es[0]);
      ErrNoIsPrivate(s, es[0]);
      assert s.WithErrNo(s.info.errNo) == s;
      EveryRunKeepsErrNoPrivate(r, es[1..], i);
    }
  }

  // ---- With logging of failed calls

  /** The calls that run the scheduler change only states, pages and memory before they do. */
  lemma SchedulingKeepsErrNos(s: KState, call: Call)
    requires Core(s) && CallIsUsable(s, call) && RunsScheduler(s, call)
    ensures EffectKeepsErrNos(s, CallEffect(s, call))
    ensures ReportedError(s, call) == 0
  {
    if call.ThreadCancel? {
      CancelingKeepsErrNos(s, call);
    } else if call.CondVar? {
      WaitKeepsThreads(s, call.cv.value);
    }
  }

  lemma CancelingKeepsErrNos(s: KState, call: Call)
    requires Core(s) && call.ThreadCancel?
    ensures EffectKeepsErrNos(s, CallEffect(s, call))
  {
    CancelChangesSlot(s, call.tid);
  }

  ghost predicate EffectKeepsErrNos(s: KState, x: KState) {
    && x.info == s.info && x.current == s.current && |x.threads| == |s.threads|
    && forall i | 0 <= i < |s.threads| :: x.threads[i].errNo == s.threads[i].errNo
  }

  /** Thread i's errno after a logged switch to `next`: once the errno 0 of the call has gone into the
      caller's record it stays there, and the saved errno goes to whoever runs next, if that thread's
      own is 0. */
  function AfterLoggedSwitch(before: KState, next: int, i: int): int
    requires 0 <= next < |before.threads| && 0 <= i < |before.threads|
  {
    if i == next then
      if next == before.current || before.threads[next].errNo == 0 then before.info.errNo
      else before.threads[next].errNo
    else if i == before.current then 0
    else before.threads[i].errNo
  }

  lemma LoggedSwitch(x: KState, before: KState, call: Call, result: int, next: int, i: int)
    requires x.WF() && x.current != NULL && x.info.errNo == 0 && before.WF() && LogsErrNo(before)
    requires before.current == x.current && |before.threads| == |x.threads| && 0 <= next < |x.threads|
    requires forall k | 0 <= k < |x.threads| :: x.threads[k].errNo == before.threads[k].errNo
    requires 0 <= i < |x.threads|
    ensures var r := FinishSyscall(SwitchTo(x, next), before, call, result);
            && |r.threads| == |x.threads| && r.next == next
            && ErrNoFor(r, next, i) == AfterLoggedSwitch(before, next, i)
  {
  }

  /** Whether errnos that were exchanged in a switch are all kept. */
  lemma ExchangedKeptIff(before: KState, r: KState, next: int)
    requires before.current != NULL && before.WF() && |r.threads| == |before.threads| && 0 <= next < |before.threads|
    requires forall i | 0 <= i < |before.threads| :: ErrNoFor(r, next, i) == AfterLoggedSwitch(before, next, i)
    ensures ErrNosKept(before, r, next, before.info.errNo) <==> next == before.current || before.info.errNo == 0
    ensures next != before.current && !IsReusable(before.threads[next]) ==>
              (ErrNosKept(before, r, next, 0) <==> before.info.errNo == 0 || before.threads[next].errNo != 0)
    ensures next != before.current ==> ErrNoFor(r, next, before.current) == 0
  {
    assert ErrNoFor(r, next, before.current) == AfterLoggedSwitch(before, next, before.current);
    assert ErrNoFor(r, next, next) == AfterLoggedSwitch(before, next, next);
  }

  lemma LoggedSwitchExchanges(x: KState, before: KState, call: Call, result: int, next: int)
    requires x.WF() && x.current != NULL && x.info.errNo == 0 && before.WF() && LogsErrNo(before)
    requires before.current == x.current && |before.threads| == |x.threads| && 0 <= next < |x.threads|
    requires forall i | 0 <= i < |x.threads| :: x.threads[i].errNo == before.threads[i].errNo
    ensures var r := FinishSyscall(SwitchTo(x, next), before, call, result);
            && r.next == next && |r.threads| == |x.threads|
            && forall i | 0 <= i < |x.threads| :: ErrNoFor(r, next, i) == AfterLoggedSwitch(before, next, i)
  {
    forall i | 0 <= i < |x.threads|
      ensures var r := FinishSyscall(SwitchTo(x, next), before, call, result);
              |r.threads| == |x.threads| && r.next == next && ErrNoFor(r, next, i) == AfterLoggedSwitch(before, next, i)
    {
      LoggedSwitch(x, before, call, result, next, i);
    }
  }

  /** A call that returns to its caller finds the errno it had, unless the call reports an error. */
  lemma LoggedReturn(d: KState, s: KState, call: Call, result: int, i: int)
    requires d.WF() && d.next == NULL && d.current == s.current != NULL && s.WF() && LogsErrNo(s)
    requires 0 <= i < |d.threads|
    ensures var r := FinishSyscall(d, s, call, result);
            && r.next == s.current && |r.threads| == |d.threads|
            && ErrNoFor(r, s.current, i) == if i == s.current && d.info.errNo == 0 then s.info.errNo else ErrNoOf(d, i)
  {
  }

  /** A call that returns to its caller finds the errno it had, unless the call reports an error. */
  lemma LoggedReturnKeepsErrNos(d: KState, s: KState, call: Call, result: int, reported: int)
    requires d.WF() && d.next == NULL && d.current == s.current != NULL && s.WF() && LogsErrNo(s)
    requires ErrNosKept(s.WithErrNo(0), d, s.current, reported)
    ensures var r := FinishSyscall(d, s, call, result);
            r.next == s.current && ErrNosKept(s, r, s.current, if reported == 0 then s.info.errNo else reported)
  {
    assert ErrNoFor(d, s.current, s.current) == reported;
    forall i | 0 <= i < |d.threads|
      ensures var r := FinishSyscall(d, s, call, result);
              && r.next == s.current && |r.threads| == |d.threads|
              && ErrNoFor(r, s.current, i) == if i == s.current && reported == 0 then s.info.errNo else ErrNoOf(d, i)
    {
      LoggedReturn(d, s, call, result, i);
    }
  }

  lemma ErrNoZeroDecidesSame(s: KState, call: Call)
    requires Core(s) && CallIsUsable(s, call)
    ensures var x := s.WithErrNo(0);
            && Core(x) && CallIsUsable(x, call) && CallExit(x, call) == CallExit(s, call)
            && (RunsScheduler(x, call) <==> RunsScheduler(s, call)) && ReportedError(x, call) == ReportedError(s, call)
            && (CallerRunsOn(x, call) <==> CallerRunsOn(s, call))
  {
    assert forall tid :: ResolvedTid(s.WithErrNo(0), tid) == ResolvedTid(s, tid);
    EntryDecidesSame(s, s.WithErrNo(0), call);
  }

  /** What a logged call comes to. */
  lemma LoggedCallIs(s: KState, call: Call)
    requires Core(s) && LogsErrNo(s) && CallIsUsable(s, call) && CallExit(s, call).None?
    ensures var x := s.WithErrNo(0);
            && Core(x) && CallIsUsable(x, call) && Dispatch(x, call).0.exit.None?
            && HandleSyscall(s, call, true) == FinishSyscall(Dispatch(x, call).0, s, call, Dispatch(x, call).1)
  {
    ErrNoZeroDecidesSame(s, call);
    CallDecides(s.WithErrNo(0), call);
  }

  /** The switch that a scheduling call makes from errno 0. */
  lemma SchedulingSwitches(x: KState, call: Call)
    requires Core(x) && CallIsUsable(x, call) && CallExit(x, call).None? && RunsScheduler(x, call)
    ensures var d := Dispatch(x, call).0; 0 <= d.next < |x.threads| && d == SwitchTo(CallEffect(x, call), d.next)
  {
    CallDecides(x, call);
    DispatchSwitches(x, call);
    SchedulingKeepsErrNos(x, call);
  }

  /** A logged call that runs the scheduler exchanges errnos in the switch. */
  lemma LoggedSchedulingExchanges(s: KState, call: Call)
    requires Core(s) && LogsErrNo(s) && CallIsUsable(s, call) && CallExit(s, call).None? && RunsScheduler(s, call)
    ensures var r := HandleSyscall(s, call, true);
            && r.exit.None? && 0 <= r.next < |s.threads| == |r.threads|
            && forall i | 0 <= i < |s.threads| :: ErrNoFor(r, r.next, i) == AfterLoggedSwitch(s, r.next, i)
  {
    var entered := s.WithErrNo(0);
    var done := Dispatch(entered, call);
    LoggedCallIs(s, call);
    ErrNoZeroDecidesSame(s, call);
    SchedulingSwitches(entered, call);
    SchedulingKeepsErrNos(entered, call);
    LoggedSwitchExchanges(CallEffect(entered, call), s, call, done.1, done.0.next);
  }

  /** The scheduler chooses the caller again only if it runs on. */
  lemma LoggedSchedulingRunsOnIff(s: KState, call: Call)
    requires Core(s) && LogsErrNo(s) && CallIsUsable(s, call) && CallExit(s, call).None? && RunsScheduler(s, call)
    ensures HandleSyscall(s, call, true).next == s.current <==> CallerRunsOn(s, call)
  {
    var entered := s.WithErrNo(0);
    ErrNoZeroDecidesSame(s, call);
    CallDecides(entered, call);
    CallerRunsOnIff(entered, call);
  }

  lemma LoggedSchedulingKeepsErrNosIff(s: KState, call: Call)
    requires Core(s) && LogsErrNo(s) && CallIsUsable(s, call) && CallExit(s, call).None? && RunsScheduler(s, call)
    ensures var r := HandleSyscall(s, call, true);
            && r.exit.None? && 0 <= r.next < |s.threads| == |r.threads|
            && (ErrNosKept(s, r, r.next, s.info.errNo) <==> s.info.errNo == 0 || CallerRunsOn(s, call))
            && (!CallerRunsOn(s, call) ==> ErrNoFor(r, r.next, s.current) == 0)
  {
    LoggedSchedulingExchanges(s, call);
    LoggedSchedulingRunsOnIff(s, call);
    var r := HandleSyscall(s, call, true);
    ExchangedKeptIff(s, r, r.next);
  }

  lemma StayingKeepsErrNos(x: KState, call: Call)
    requires Core(x) && CallIsUsable(x, call) && CallExit(x, call).None? && !RunsScheduler(x, call)
    requires x.info.errNo == 0
    ensures var d := Dispatch(x, call).0;
            d.next == NULL && d.current == x.current && ErrNosKept(x, d, x.current, ReportedError(x, call))
  {
    CallDecides(x, call);
    DispatchKeepsErrNos(x, call);
    assert OwnErrNo(x, Syscall(x.cpu, call, true)) == ReportedError(x, call);
  }

  lemma OwnIsReported(s: KState, call: Call)
    requires s.WF() && s.current != NULL
    ensures OwnErrNo(s, Syscall(s.cpu, call, true))
            == if ReportedError(s, call) == 0 then s.info.errNo else ReportedError(s, call)
  {
  }

  lemma LoggedStayKeepsErrNos(s: KState, call: Call)
    requires Core(s) && LogsErrNo(s) && CallIsUsable(s, call) && CallExit(s, call).None? && !RunsScheduler(s, call)
    ensures var r := HandleSyscall(s, call, true);
            && r.exit.None? && r.next == s.current
            && ErrNosKept(s, r, r.next, OwnErrNo(s, Syscall(s.cpu, call, true)))
  {
    var entered := s.WithErrNo(0);
    var done := Dispatch(entered, call);
    LoggedCallIs(s, call);
    ErrNoZeroDecidesSame(s, call);
    StayingKeepsErrNos(entered, call);
    OwnIsReported(s, call);
    LoggedReturnKeepsErrNos(done.0, s, call, done.1, ReportedError(s, call));
  }

  /** While failed calls are logged, the errno saved around a call is lost in a switch: a call keeps
      every thread's errno, or reports its own error, exactly when the caller's errno is 0, or the call
      does not run the scheduler, or the scheduler chooses the caller. */
  lemma LoggingKeepsErrNosIff(s: KState, call: Call)
    requires Core(s) && LogsErrNo(s) && CallIsUsable(s, call) && CallExit(s, call).None?
    ensures var r := HandleSyscall(s, call, true);
            && r.exit.None? && r.next != NULL
            && (ErrNosKept(s, r, r.next, OwnErrNo(s, Syscall(s.cpu, call, true)))
                <==> s.info.errNo == 0 || CallerRunsOn(s, call))
  {
    if RunsScheduler(s, call) {
      LoggedSchedulingKeepsErrNosIff(s, call);
      SchedulingReportsNothing(s, call);
    } else {
      LoggedStayKeepsErrNos(s, call);
    }
  }

  lemma SchedulingReportsNothing(s: KState, call: Call)
    requires Core(s) && CallIsUsable(s, call) && RunsScheduler(s, call)
    ensures OwnErrNo(s, Syscall(s.cpu, call, true)) == s.info.errNo
  {
    SchedulingKeepsErrNos(s, call);
  }

  /** With a failed stack check, the errno of the thread that is hidden goes to the next thread, unless
      that one has an errno of its own. */
  lemma HiddenLoggingKeepsErrNosIff(s: KState, call: Call)
    requires Core(s) && LogsErrNo(s) && CallIsUsable(s, call)
    requires s.config & KCFG_DESTROY_ON_STACK_ERR != 0 && OthersCanRun(s)
    ensures var r := HandleSyscall(s, call, false); var next := ChooseNextThread(Invalidated(s).threads, s.current);
            && r.exit.None? && r.next == next && 0 <= next < |s.threads| && next != s.current
            && (ErrNosKept(s, r, next, 0) <==> s.info.errNo == 0 || s.threads[next].errNo != 0)
  {
    HiddenExchanges(s, call);
    ExchangedKeptIff(s, HandleSyscall(s, call, false), ChooseNextThread(Invalidated(s).threads, s.current));
  }

  lemma HiddenExchanges(s: KState, call: Call)
    requires Core(s) && LogsErrNo(s) && CallIsUsable(s, call)
    requires s.config & KCFG_DESTROY_ON_STACK_ERR != 0 && OthersCanRun(s)
    ensures var r := HandleSyscall(s, call, false); var next := ChooseNextThread(Invalidated(s).threads, s.current);
            && r.exit.None? && r.next == next && 0 <= next < |s.threads| == |r.threads|
            && next != s.current && !IsReusable(s.threads[next])
            && forall i | 0 <= i < |s.threads| :: ErrNoFor(r, next, i) == AfterLoggedSwitch(s, next, i)
  {
    HidingParks(s);
    HiddenSwitches(s, call);
    var next := ChooseNextThread(Invalidated(s).threads, s.current);
    LoggedSwitchExchanges(Invalidated(s).WithErrNo(0), s, YIELD_TO_ANY, 1, next);
  }

  /** The thread that takes over is another one, which can run. */
  lemma HiddenChoice(s: KState)
    requires Core(s) && OthersCanRun(s)
    ensures var next := ChooseNextThread(Invalidated(s).threads, s.current);
            && 0 <= next < |s.threads| && next != s.current && !IsReusable(s.threads[next])
            && DoScheduler(Invalidated(s).WithErrNo(0)) == SwitchTo(Invalidated(s).WithErrNo(0), next)
  {
    HidingParks(s);
    SchedulerDecides(Invalidated(s).WithErrNo(0));
    SchedulerSwitches(Invalidated(s).WithErrNo(0));
  }

  lemma HiddenSwitches(s: KState, call: Call)
    requires Core(s) && LogsErrNo(s) && CallIsUsable(s, call)
    requires s.config & KCFG_DESTROY_ON_STACK_ERR != 0 && OthersCanRun(s)
    ensures var x, next := Invalidated(s).WithErrNo(0), ChooseNextThread(Invalidated(s).threads, s.current);
            && 0 <= next < |s.threads| == |x.threads| && next != s.current && !IsReusable(s.threads[next])
            && HandleSyscall(s, call, false) == FinishSyscall(SwitchTo(x, next), s, YIELD_TO_ANY, 1)
            && HandleSyscall(s, call, false).exit.None?
  {
    HiddenChoice(s);
    YieldToAnyIs(Invalidated(s).WithErrNo(0), s);
    HiddenIsHandled(s, call);
  }

  lemma HiddenIsHandled(s: KState, call: Call)
    requires Core(s) && LogsErrNo(s) && CallIsUsable(s, call) && s.config & KCFG_DESTROY_ON_STACK_ERR != 0
    ensures HandleSyscall(s, call, false) == Handled(Invalidated(s).WithErrNo(0), s, YIELD_TO_ANY)
  {
  }

  lemma HidingParks(s: KState)
    requires Core(s)
    ensures var x := Invalidated(s).WithErrNo(0);
            && x.next == NULL && x.exit.None? && x.current == s.current && IdsMatch(x.threads)
            && |x.threads| == |s.threads| && !CanSchedule(x.threads, s.current)
            && (SomeoneCanRun(x.threads) <==> OthersCanRun(s))
            && forall i | 0 <= i < |s.threads| :: x.threads[i].errNo == s.threads[i].errNo
  {
    ParkedLeavesOthers(s, Invalidated(s).WithErrNo(0));
  }

  // ---- Steps with logging

  /** Leaving the kernel exchanges no errnos. */
  lemma ReturnKeepsErrNos(s: KState, saved: KState, t: KState, own: int)
    requires s.WF() && s.current != NULL && t.WF() && t.current != NULL && LoadNextThread(t).exit.None?
    requires |t.threads| == |saved.threads| == |s.threads| && saved.current == s.current && saved.info == s.info
    requires forall i | 0 <= i < |s.threads| ::
               saved.threads[i].errNo == s.threads[i].errNo && IsReusable(saved.threads[i]) == IsReusable(s.threads[i])
    ensures var r := LoadNextThread(t);
            && |r.threads| == |s.threads|
            && (ErrNosKept(s, r, r.current, own) <==> ErrNosKept(saved, t, Chosen(t), own))
            && forall i | 0 <= i < |s.threads| :: ErrNoOf(r, i) == ErrNoFor(t, Chosen(t), i)
  {
    forall i | 0 <= i < |t.threads|
      ensures var r := LoadNextThread(t); |r.threads| == |t.threads| && ErrNoOf(r, i) == ErrNoFor(t, Chosen(t), i)
    {
      LoadNextKeepsErrNos(t, i);
    }
    SameErrNosKept(s, saved, LoadNextThread(t), t, own);
  }

  lemma SameErrNosKept(s: KState, saved: KState, r: KState, t: KState, own: int)
    requires s.WF() && s.current != NULL && |r.threads| == |t.threads| == |saved.threads| == |s.threads|
    requires saved.current == s.current && saved.info == s.info
    requires forall i | 0 <= i < |s.threads| ::
               saved.threads[i].errNo == s.threads[i].errNo && IsReusable(saved.threads[i]) == IsReusable(s.threads[i])
    requires forall i | 0 <= i < |s.threads| :: ErrNoOf(r, i) == ErrNoFor(t, Chosen(t), i)
    ensures ErrNosKept(s, r, r.current, own) <==> ErrNosKept(saved, t, Chosen(t), own)
  {
    assert forall i | 0 <= i < |s.threads| :: ErrNoOf(saved, i) == ErrNoOf(s, i);
    assert forall i | 0 <= i < |s.threads| :: ErrNoFor(r, r.current, i) == ErrNoFor(t, Chosen(t), i);
  }

  lemma SavedDecidesSame(s: KState, f: Frame, call: Call)
    requires Core(s) && CallIsUsable(s, call)
    ensures var x := Saved(s, f);
            && Core(x) && CallIsUsable(x, call) && CallExit(x, call) == CallExit(s, call)
            && LogsErrNo(x) == LogsErrNo(s)
            && x.info == s.info && x.current == s.current && |x.threads| == |s.threads|
            && (RunsScheduler(x, call) <==> RunsScheduler(s, call))
            && (CallerRunsOn(x, call) <==> CallerRunsOn(s, call))
            && (OthersCanRun(x) <==> OthersCanRun(s))
            && forall i | 0 <= i < |s.threads| ::
                 x.threads[i].errNo == s.threads[i].errNo && IsReusable(x.threads[i]) == IsReusable(s.threads[i])
  {
    SavedKeepsCore(s, f, call);
    EntryDecidesSame(s, Saved(s, f), call);
  }

  /** The iff for a whole step. */
  lemma LoggedStepKeepsErrNosIff(s: KState, f: Frame, call: Call)
    requires Core(s) && LogsErrNo(s) && Allowed(s, Syscall(f, call, true)) && CallExit(s, call).None?
    ensures var e := Syscall(f, call, true); var r := Step(s, e);
            && r.exit.None? && |r.threads| == |s.threads|
            && (ErrNosKept(s, r, r.current, OwnErrNo(s, e)) <==> s.info.errNo == 0 || CallerRunsOn(s, call))
            && (RunsScheduler(s, call) && !CallerRunsOn(s, call) ==> ErrNoOf(r, s.current) == 0)
  {
    var saved := Saved(s, f);
    SavedDecidesSame(s, f, call);
    SavedReportsSame(s, f, call);
    LoggingKeepsErrNosIff(saved, call);
    LoggedLoses(saved, call);
    StepEndsKernelIff(s, Syscall(f, call, true));
    ReturnKeepsErrNos(s, saved, HandleSyscall(saved, call, true), OwnErrNo(s, Syscall(f, call, true)));
  }

  lemma LoggedLoses(s: KState, call: Call)
    requires Core(s) && LogsErrNo(s) && CallIsUsable(s, call) && CallExit(s, call).None?
    ensures var r := HandleSyscall(s, call, true);
            && |r.threads| == |s.threads|
            && (RunsScheduler(s, call) && !CallerRunsOn(s, call) ==> ErrNoFor(r, r.next, s.current) == 0)
  {
    if RunsScheduler(s, call) {
      LoggedSchedulingKeepsErrNosIff(s, call);
    } else {
      LoggedStayKeepsErrNos(s, call);
    }
  }
}
