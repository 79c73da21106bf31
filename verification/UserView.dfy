/** The user's cached view of the running thread, and the one errno that serves every thread. */
module UserView {
  import opened Basics
  import opened Threads
  import opened Scheduler
  import opened Lifecycle
  import opened Rings
  import opened Steps
  import opened CoreInvariant
  import opened Effects

  /** The cached id, name and configuration are those of thread `who` and of the kernel. */
  ghost predicate ShowsThread(s: KState, who: int)
    requires 0 <= who < |s.threads|
  {
    s.info == InfoOf(s.threads[who], s.config).(errNo := s.info.errNo)
  }

  ghost predicate ViewIsFresh(s: KState) {
    s.WF() && s.current != NULL && ShowsThread(s, s.current)
  }

  // ---- The cache

  lemma SchedulerShowsNext(s: KState)
    requires s.WF() && DoScheduler(s).exit.None?
    ensures ShowsThread(DoScheduler(s), DoScheduler(s).next)
  {
  }

  lemma LoadNextShowsCurrent(s: KState)
    requires s.WF() && LoadNextThread(s).exit.None? && (s.next != NULL ==> ShowsThread(s, s.next))
    ensures ViewIsFresh(LoadNextThread(s))
  {
    if s.next == NULL {
      SchedulerShowsNext(s);
    }
  }

  lemma WaitShows(s: KState, op: CondVarOp, cv: Option<nat>)
    requires Core(s) && ViewIsFresh(s) && CallIsUsable(s, CondVar(op, cv)) && CondVarCall(s, op, cv).0.exit.None?
    ensures var r := CondVarCall(s, op, cv).0; Chosen(r) < |r.threads| && ShowsThread(r, Chosen(r))
  {
    if cv.Some? {
      match op {
        case CvInit =>
        case CvSignal => SignalShows(s, cv.value);
        case CvBroadcast => BroadcastShows(s, cv.value);
        case CvWait => WaitingShows(s, cv.value);
        case CvUnknown =>
      }
    }
  }

  lemma SignalShows(s: KState, c: nat)
    requires Core(s) && ViewIsFresh(s) && c < |s.condVars|
    ensures var r := Signalled(s, c); r.next == NULL && ShowsThread(r, s.current)
  {
  }

  lemma BroadcastShows(s: KState, c: nat)
    requires Core(s) && ViewIsFresh(s) && c < |s.condVars|
    ensures var r := Broadcasted(s, c); r.next == NULL && ShowsThread(r, s.current)
  {
    BroadcastOnlyWakes(s, c);
  }

  lemma WaitingShows(s: KState, c: nat)
    requires Core(s) && c < |s.condVars| && CondVarCall(s, CvWait, Some(c)).0.exit.None?
    ensures var r := CondVarCall(s, CvWait, Some(c)).0; 0 <= r.next < |r.threads| && ShowsThread(r, r.next)
  {
    WaitingSchedules(s, c);
    SchedulerShowsNext(CallEffect(s, CondVar(CvWait, Some(c))));
  }

  lemma WaitingSchedules(s: KState, c: nat)
    requires Core(s) && c < |s.condVars|
    ensures CondVarCall(s, CvWait, Some(c)).0 == DoScheduler(CallEffect(s, CondVar(CvWait, Some(c))))
  {
  }

  lemma AddShows(s: KState, call: Call)
    requires Core(s) && ViewIsFresh(s) && call.AddThread?
    ensures var r := Dispatch(s, call).0; r.next == NULL && |r.threads| == |s.threads| && ShowsThread(r, s.current)
  {
    AddCallOnlyAdds(s, call);
    AddStays(s, call);
  }

  lemma AddStays(s: KState, call: Call)
    requires Core(s) && call.AddThread?
    ensures Dispatch(s, call).0.next == NULL
  {
  }

  lemma DispatchShows(s: KState, call: Call)
    requires Core(s) && ViewIsFresh(s) && CallIsUsable(s, call) && !UpdatesUserInfo(call)
    requires Dispatch(s, call).0.exit.None?
    ensures var r := Dispatch(s, call).0; Chosen(r) < |r.threads| && ShowsThread(r, Chosen(r))
  {
    match call {
      case AddThread(_, _, _, _, _) => AddShows(s, call);
      case Yield(_, _) => YieldShows(s, call);
      case ThreadCancel(_) => CancelShows(s, call);
      case ThreadWait => SchedulerShowsNext(CallEffect(s, call));
      case CondVar(op, cv) => WaitShows(s, op, cv);
      case _ => PlainCallShows(s, call);
    }
  }

  lemma YieldShows(s: KState, call: Call)
    requires Core(s) && ViewIsFresh(s) && call.Yield? && Dispatch(s, call).0.exit.None?
    ensures var r := Dispatch(s, call).0; Chosen(r) < |r.threads| && ShowsThread(r, Chosen(r))
  {
    if call.kind == YIELD_ANY {
      SchedulerShowsNext(s);
    } else if CanSchedule(s.threads, call.tid) {
      SchedulerShowsNext(s.(next := call.tid));
    }
  }

  lemma CancelShows(s: KState, call: Call)
    requires Core(s) && ViewIsFresh(s) && call.ThreadCancel? && Dispatch(s, call).0.exit.None?
    ensures var r := Dispatch(s, call).0; Chosen(r) < |r.threads| && ShowsThread(r, Chosen(r))
  {
    var i := if call.tid == CURRENT_THREAD then s.Current().id else call.tid;
    if IsValidThread(s.threads, i) && i == s.Current().id {
      SchedulerShowsNext(CancelSlot(s, i));
    }
  }

  lemma PlainCallShows(s: KState, call: Call)
    requires Core(s) && ViewIsFresh(s) && CallIsUsable(s, call) && IsPlain(call) && !call.SetKernelConfig?
    requires !call.Yield? && !call.ThreadWait? && !call.CondVar?
    ensures var r := Dispatch(s, call).0; r.next == NULL && |r.threads| == |s.threads| && ShowsThread(r, s.current)
  {
    if call.SendMsg? || call.GetMsg? || call.ThreadWake? {
      RecordCallShows(s, call);
    } else {
      CallStays(s, call);
      OutsideCallKeepsThreads(s, call);
      OutsideCallKeepsView(s, call);
    }
  }

  lemma RecordCallShows(s: KState, call: Call)
    requires Core(s) && ViewIsFresh(s) && (call.SendMsg? || call.GetMsg? || call.ThreadWake?)
    ensures var r := Dispatch(s, call).0; r.next == NULL && |r.threads| == |s.threads| && ShowsThread(r, s.current)
  {
  }

  lemma OutsideCallKeepsView(s: KState, call: Call)
    requires Core(s) && CallIsUsable(s, call) && IsOutside(call) && !call.SetKernelConfig?
    ensures var r := Dispatch(s, call).0; r.config == s.config && r.info == s.info.(errNo := r.info.errNo)
  {
    OutsideCallIs(s, call);
    OutsideCallConfigures(s, call);
  }

  lemma FinishShows(s: KState, before: KState, call: Call, result: int)
    requires Settled(s) && s.current != NULL && before.WF() && before.current != NULL
    requires (UpdatesUserInfo(call) && s.next == NULL) || ShowsThread(s, Chosen(s))
    ensures var r := FinishSyscall(s, before, call, result); r.next == Chosen(s) && ShowsThread(r, r.next)
  {
  }

  lemma HandledShows(s: KState, before: KState, call: Call)
    requires Core(s) && ViewIsFresh(s) && CallIsUsable(s, call) && before.WF() && before.current != NULL
    requires Handled(s, before, call).exit.None?
    ensures var r := Handled(s, before, call); r.next != NULL && ShowsThread(r, r.next)
  {
    DispatchSettles(s, call);
    if UpdatesUserInfo(call) {
      CallStays(s, call);
    } else {
      DispatchShows(s, call);
    }
    var done := Dispatch(s, call);
    FinishShows(done.0, before, call, done.1);
  }

  lemma SyscallShows(s: KState, call: Call)
    requires Core(s) && ViewIsFresh(s) && CallIsUsable(s, call) && HandleSyscall(s, call, true).exit.None?
    ensures var r := HandleSyscall(s, call, true); r.next != NULL && ShowsThread(r, r.next)
  {
    HandledShows(WithErrNoForCall(s), s, call);
  }

  lemma YieldAnyShows(s: KState, before: KState)
    requires s.WF() && s.next == NULL && s.current != NULL && s.exit.None?
    requires IdsMatch(s.threads) && OnlyRuns(s.threads, s.current)
    requires before.WF() && before.current != NULL && YieldCall(s, INVALID_THREAD, YIELD_ANY).0.exit.None?
    ensures var done := YieldCall(s, INVALID_THREAD, YIELD_ANY);
            var r := FinishSyscall(done.0, before, YIELD_TO_ANY, done.1);
            r.next != NULL && ShowsThread(r, r.next)
  {
    SchedulerShowsNext(s);
    YieldSettles(s, INVALID_THREAD, YIELD_ANY);
    var done := YieldCall(s, INVALID_THREAD, YIELD_ANY);
    FinishShows(done.0, before, YIELD_TO_ANY, done.1);
  }

  lemma StackErrorShows(s: KState, call: Call)
    requires Core(s) && CallIsUsable(s, call) && HandleSyscall(s, call, false).exit.None?
    ensures var r := HandleSyscall(s, call, false); r.next != NULL && ShowsThread(r, r.next)
  {
    YieldAnyShows(WithErrNoForCall(Invalidated(s)), s);
  }

  lemma StepKeepsViewFresh(s: KState, e: Event)
    requires Core(s) && ViewIsFresh(s) && Allowed(s, e) && Step(s, e).exit.None?
    ensures ViewIsFresh(Step(s, e))
  {
    match e {
      case Syscall(f, call, stackOk) =>
        var saved := Saved(s, f);
        SavedKeepsCore(s, f, call);
        if stackOk { SyscallShows(saved, call); } else { StackErrorShows(saved, call); }
        LoadNextShowsCurrent(HandleSyscall(saved, call, stackOk));
      case ThreadSwitch(f) => LoadNextShowsCurrent(Saved(s, f));
      case TimerTick(f) => LoadNextShowsCurrent(Saved(s, f));
      case TimerControl(f) => LoadNextShowsCurrent(Saved(s, f).(next := s.current));
      case ThreadExit(f) => ExitShows(s, f);
      case _ =>
    }
  }

  lemma ExitShows(s: KState, f: Frame)
    requires Core(s) && Allowed(s, ThreadExit(f)) && Step(s, ThreadExit(f)).exit.None?
    ensures ViewIsFresh(Step(s, ThreadExit(f)))
  {
    var cleaned := CleanupThread(s, s.current);
    LoadNextShowsCurrent(Saved(cleaned.WithThread(s.current, cleaned.Current().(state := Finished)), f));
  }

  lemma BootShows(s: KState, start: StartUp)
    requires IsCold(s) && Booted(s, start).exit.None?
    ensures ViewIsFresh(Booted(s, start))
  {
    BootEstablishesCore(s, start);
    FirstThreadIsFound(s, start);
    LoadNextShowsCurrent(WithFirstThread(s, start).0);
  }

  /** At every return to user code the cached id, name and configuration are the real ones. */
  lemma {:induction false} EveryRunKeepsViewFresh(s: KState, es: seq<Event>)
    requires Core(s) && ViewIsFresh(s) && IsRun(s, es) && Run(s, es).exit.None?
    ensures ViewIsFresh(Run(s, es))
    decreases |es|
  {
    if es == [] {
    } else {
      var r := Step(s, es[0]);
      RunGoesOn(s, es);
      StepKeepsCore(s, es[0]);
      StepKeepsViewFresh(s, es[0]);
      EveryRunKeepsViewFresh(r, es[1..]);
    }
  }
}
