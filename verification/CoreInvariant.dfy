/** Identity and liveness of threads in every run, and when the scheduler gives up. */
module CoreInvariant {
  import opened Basics
  import opened Threads
  import opened Scheduler
  import opened Lifecycle
  import opened Rings
  import opened Steps

  /** A slot's id is its index, or the slot is invalid. */
  ghost predicate IdsMatch(ts: seq<Thread>) {
    forall i | 0 <= i < |ts| :: ts[i].id == i || ts[i].id == INVALID_THREAD
  }

  /** No other slot than `who` is in state running. */
  ghost predicate OnlyRuns(ts: seq<Thread>, who: int) {
    forall i | 0 <= i < |ts| && ts[i].state == Running :: i == who
  }

  ghost predicate SomeoneCanRun(ts: seq<Thread>) {
    exists i :: CanSchedule(ts, i)
  }

  /** Holds whenever user code runs. */
  ghost predicate Core(s: KState) {
    && s.WF() && s.next == NULL && s.exit.None?
    && IdsMatch(s.threads) && OnlyRuns(s.threads, s.current) && CanSchedule(s.threads, s.current)
  }

  /** The thread that will run when the kernel is left: the next one if set, else the current. */
  function Chosen(s: KState): int {
    if s.next == NULL then s.current else s.next
  }

  /** Holds inside the kernel once a call is done. */
  ghost predicate Settled(s: KState) {
    && s.WF() && s.exit.None?
    && IdsMatch(s.threads) && OnlyRuns(s.threads, Chosen(s)) && CanSchedule(s.threads, Chosen(s))
  }

  // ---- The search

  lemma WrapOnce(x: nat, n: nat)
    requires 0 < n && x < 2 * n
    ensures x % n == if x < n then x else x - n
  {
    if x >= n {
      assert x == n + (x - n);
    }
  }

  /** Slot k, counted on round the array, is the first schedulable one from `start`. */
  ghost predicate IsFirst(ts: seq<Thread>, start: nat, k: nat)
    requires |ts| > 0
  {
    start <= k && CanSchedule(ts, k % |ts|) && forall j | start <= j < k :: !CanSchedule(ts, j % |ts|)
  }

  /** The search finds the first schedulable slot in cyclic order, or there is none. */
  lemma {:induction false} FirstSchedulableIsFirst(ts: seq<Thread>, start: nat, count: nat)
    requires |ts| > 0
    ensures var r := FirstSchedulable(ts, start, count);
            if r == NULL then forall k | start <= k < start + count :: !CanSchedule(ts, k % |ts|)
            else exists k | start <= k < start + count :: r == k % |ts| && IsFirst(ts, start, k)
    decreases count
  {
    if count == 0 {
    } else if CanSchedule(ts, start % |ts|) {
      assert IsFirst(ts, start, start);
    } else {
      FirstSchedulableIsFirst(ts, start + 1, count - 1);
      var r := FirstSchedulable(ts, start + 1, count - 1);
      if r != NULL {
        var k :| start + 1 <= k < start + count && r == k % |ts| && IsFirst(ts, start + 1, k);
        assert IsFirst(ts, start, k);
      }
    }
  }

  /** A full turn of the array misses no slot. */
  lemma ChooseFindsNoneIff(ts: seq<Thread>, current: int)
    requires |ts| > 0 && NULL <= current < |ts|
    ensures ChooseNextThread(ts, current) == NULL <==> !SomeoneCanRun(ts)
  {
    var start, n := SearchStart(ts, current), |ts|;
    FirstSchedulableIsFirst(ts, start, n);
    if ChooseNextThread(ts, current) == NULL {
      forall i
        ensures !CanSchedule(ts, i)
      {
        if 0 <= i < n {
          var k := if i >= start then i else i + n;
          WrapOnce(k, n);
          assert !CanSchedule(ts, k % n);
        }
      }
    }
  }

  // ---- The scheduler

  /** With matching ids the inconsistency exit and the fallback to the current thread are never
      taken, and the kernel exits exactly when no thread can be scheduled. */
  lemma SchedulerExitsIff(s: KState)
    requires s.WF() && s.next == NULL && s.exit.None? && IdsMatch(s.threads)
    ensures !FindsInconsistentSlot(s)
    ensures Target(s) == ChooseNextThread(s.threads, s.current)
    ensures DoScheduler(s).exit == if SomeoneCanRun(s.threads) then None else Some(0)
  {
    ChooseFindsNoneIff(s.threads, s.current);
  }

  lemma SchedulerSettles(s: KState)
    requires s.WF() && s.exit.None? && IdsMatch(s.threads) && OnlyRuns(s.threads, s.current)
    requires s.next != NULL ==> CanSchedule(s.threads, s.next)
    ensures DoScheduler(s).exit.None? ==> Settled(DoScheduler(s)) && DoScheduler(s).next != NULL
  {
    if DoScheduler(s).exit.None? {
      if s.next == NULL {
        SchedulerExitsIff(s);
        ChooseFindsNoneIff(s.threads, s.current);
      }
      SwitchSettles(s, Target(s));
    }
  }

  lemma SwitchSettles(s: KState, next: int)
    requires s.WF() && s.exit.None? && IdsMatch(s.threads) && OnlyRuns(s.threads, s.current)
    requires CanSchedule(s.threads, next)
    ensures Settled(SwitchTo(s, next)) && SwitchTo(s, next).next == next
  {
  }

  // ---- Calls

  lemma CancelSettles(s: KState, tid: int)
    requires Core(s)
    ensures CancelThread(s, tid).0.exit.None? ==> Settled(CancelThread(s, tid).0)
  {
    var i := if tid == CURRENT_THREAD then s.Current().id else tid;
    if IsValidThread(s.threads, i) && i == s.Current().id {
      SchedulerSettles(CancelSlot(s, i));
    }
  }

  lemma YieldSettles(s: KState, tid: int, kind: int)
    requires s.WF() && s.next == NULL && s.exit.None? && IdsMatch(s.threads) && OnlyRuns(s.threads, s.current)
    requires CanSchedule(s.threads, s.current) || (kind == YIELD_ANY && tid == INVALID_THREAD)
    ensures YieldCall(s, tid, kind).0.exit.None? ==> Settled(YieldCall(s, tid, kind).0)
  {
    if kind == YIELD_ANY && tid == INVALID_THREAD {
      SchedulerSettles(s);
    } else if kind == YIELD_TO && CanSchedule(s.threads, tid) {
      SchedulerSettles(s.(next := tid));
    }
  }

  lemma WaitSettles(s: KState)
    requires Core(s)
    ensures WaitThread(s).exit.None? ==> Settled(WaitThread(s))
  {
    SchedulerSettles(s.WithThread(s.current, s.Current().(state := Waiting)));
  }

  lemma WakeSettles(s: KState, tid: int)
    requires Core(s)
    ensures Core(WakeThread(s, tid).0)
  {
  }

  lemma {:induction false} BroadcastSettles(s: KState, c: nat)
    requires Core(s) && c < |s.condVars|
    ensures Core(Broadcasted(s, c))
    decreases BroadcastBound(s.condVars[c])
  {
    if !HasWaiter(s.condVars[c]) {
    } else {
      BroadcastBoundDecreases(s.condVars[c], |s.threads|);
      WakeSettles(s, s.condVars[c].waiting[s.condVars[c].first]);
      BroadcastSettles(Signalled(s, c), c);
    }
  }

  lemma CondVarSettles(s: KState, op: CondVarOp, cv: Option<nat>)
    requires Core(s) && (cv.Some? ==> cv.value < |s.condVars|)
    ensures CondVarCall(s, op, cv).0.exit.None? ==> Settled(CondVarCall(s, op, cv).0)
  {
    if op != CvUnknown && cv.Some? {
      var c := cv.value;
      match op {
        case CvSignal => if HasWaiter(s.condVars[c]) { WakeSettles(s, s.condVars[c].waiting[s.condVars[c].first]); }
        case CvBroadcast => BroadcastSettles(s, c);
        case CvWait => WaitSettles(WithCondVar(s, c, Enqueued(s.condVars[c], ThreadId(s))));
        case _ =>
      }
    }
  }

  lemma AddSettles(s: KState, worker: int, name: Option<string>, args: ThreadArgs, removePermissions: bv16)
    requires Core(s)
    ensures Core(AddNamedThread(s, worker, name, args, removePermissions).0)
  {
  }

  lemma AddFromFileSettles(s: KState, filename: string, removePermissions: bv16)
    requires Core(s)
    ensures Core(AddThreadFromFile(s, filename, removePermissions).0)
  {
    var p := FindFreeBackingPage(s.pages, 0);
    AddSettles(s, LOAD_ELF, Some("loader"), ThreadArgs(p, removePermissions as int, 0, 0), 0);
  }

  lemma AddCallSettles(s: KState, name: Option<string>, args: Option<ThreadArgs>, worker: int, filename: string,
                       flags: Option<ThreadFlags>)
    requires Core(s)
    ensures Core(AddThreadCall(s, name, args, worker, filename, flags).0)
  {
    if flags.Some? {
      var newArgs := if args.Some? then args.value else ThreadArgs(0, 0, 0, 0);
      AddSettles(s, worker, name, newArgs, flags.value.removePermissions);
      AddFromFileSettles(s, filename, flags.value.removePermissions);
    }
  }

  lemma SetPropertySettles(s: KState, tid: int, value: Option<Property>)
    requires Core(s)
    ensures Core(SetPropertyCall(s, tid, value).0)
  {
    if value.Some? && IsValidThread(s.threads, ResolvedTid(s, tid)) {
      WithPropertySettles(s, ResolvedTid(s, tid), value.value);
    }
  }

  lemma WithPropertySettles(s: KState, i: int, p: Property)
    requires Core(s) && IsValidThread(s.threads, i)
    ensures Core(WithProperty(s, i, p).0)
  {
  }

  lemma RestartSettles(s: KState, worker: int, name: Option<string>, args: ThreadArgs, removePermissions: bv16)
    requires Core(s) && s.Current().codeBackingPage != INVALID_PAGE
    ensures Core(RestartCall(s, worker, name, args, removePermissions))
  {
  }

  lemma DispatchSettles(s: KState, call: Call)
    requires Core(s) && CallIsUsable(s, call)
    ensures Dispatch(s, call).0.exit.None? ==> Settled(Dispatch(s, call).0)
  {
    match call {
      case Yield(tid, kind) => YieldSettles(s, tid, kind);
      case ThreadWait => WaitSettles(s);
      case ThreadCancel(tid) => CancelSettles(s, tid);
      case CondVar(op, cv) => CondVarSettles(s, op, cv);
      case _ => StayingCallSettles(s, call);
    }
  }

  lemma StayingCallSettles(s: KState, call: Call)
    requires Core(s) && CallIsUsable(s, call)
    requires !call.Yield? && !call.ThreadWait? && !call.ThreadCancel? && !call.CondVar?
    ensures Dispatch(s, call).0.exit.None? ==> Settled(Dispatch(s, call).0)
  {
    match call {
      case AddThread(name, args, worker, filename, flags) => AddCallSettles(s, name, args, worker, filename, flags);
      case SetThreadProperty(tid, value) => SetPropertySettles(s, tid, value);
      case Restart(worker, name, args, remove) => RestartSettles(s, worker, name, args, remove);
      case ThreadWake(tid) => WakeSettles(s, tid);
      case GetMsg(_) => MailSettles(s, call);
      case SendMsg(_, _) => MailSettles(s, call);
      case _ => OutsideCallSettles(s, call);
    }
  }

  lemma MailSettles(s: KState, call: Call)
    requires Core(s) && (call.GetMsg? || call.SendMsg?)
    ensures Core(Dispatch(s, call).0)
  {
  }

  /** Calls that touch no thread record at all. */
  predicate IsOutside(call: Call) {
    || call.GetThreadProperty? || call.SetKernelConfig? || call.HostCall? || call.ExitKernel?
    || call.Malloc? || call.Realloc? || call.Free? || call.UnknownCall?
  }

  lemma OutsideCallIs(s: KState, call: Call)
    requires s.WF() && s.current != NULL && CallIsUsable(s, call) && IsOutside(call)
    ensures var r := Dispatch(s, call).0;
            r == s.(info := s.info.(errNo := r.info.errNo), config := r.config, heap := r.heap, exit := r.exit)
  {
  }

  lemma OutsideCallSettles(s: KState, call: Call)
    requires Core(s) && CallIsUsable(s, call) && IsOutside(call)
    ensures Dispatch(s, call).0.exit.None? ==> Core(Dispatch(s, call).0)
  {
    OutsideCallIs(s, call);
  }

  // ---- Steps and runs

  lemma FinishSettles(s: KState, before: KState, call: Call, result: int)
    requires Settled(s) && s.current != NULL && before.WF() && before.current != NULL
    ensures Settled(FinishSyscall(s, before, call, result)) && FinishSyscall(s, before, call, result).next != NULL
  {
  }

  lemma HandledSettles(s: KState, before: KState, call: Call)
    requires Core(s) && CallIsUsable(s, call) && before.WF() && before.current != NULL
    ensures var r := Handled(s, before, call); r.exit.None? ==> Settled(r) && r.next != NULL
  {
    DispatchSettles(s, call);
    var done := Dispatch(s, call);
    if done.0.exit.None? {
      FinishSettles(done.0, before, call, done.1);
    }
  }

  lemma SyscallSettles(s: KState, call: Call)
    requires Core(s) && CallIsUsable(s, call)
    ensures var r := HandleSyscall(s, call, true); r.exit.None? ==> Settled(r) && r.next != NULL
  {
    HandledSettles(WithErrNoForCall(s), s, call);
  }

  lemma StackErrorSettles(s: KState, call: Call)
    requires Core(s) && CallIsUsable(s, call)
    ensures var r := HandleSyscall(s, call, false); r.exit.None? ==> Settled(r) && r.next != NULL
  {
    YieldToAnySettles(WithErrNoForCall(Invalidated(s)), s);
  }

  lemma YieldToAnySettles(s: KState, before: KState)
    requires s.WF() && s.next == NULL && s.current != NULL && s.exit.None?
    requires IdsMatch(s.threads) && OnlyRuns(s.threads, s.current) && before.WF() && before.current != NULL
    ensures var r := Handled(s, before, YIELD_TO_ANY); r.exit.None? ==> Settled(r) && r.next != NULL
  {
    YieldSettles(s, INVALID_THREAD, YIELD_ANY);
    var done := YieldCall(s, INVALID_THREAD, YIELD_ANY);
    if done.0.exit.None? {
      FinishSettles(done.0, before, YIELD_TO_ANY, done.1);
    }
  }

  lemma LoadNextKeepsCore(s: KState)
    requires s.WF() && s.exit.None? && IdsMatch(s.threads)
    requires if s.next == NULL then OnlyRuns(s.threads, s.current) else Settled(s)
    ensures LoadNextThread(s).exit.None? ==> Core(LoadNextThread(s))
  {
    if s.next == NULL {
      SchedulerSettles(s);
    }
  }

  lemma ExitKeepsCore(s: KState, f: Frame)
    requires Core(s) && Allowed(s, ThreadExit(f))
    ensures Step(s, ThreadExit(f)).exit.None? ==> Core(Step(s, ThreadExit(f)))
  {
    var cleaned := CleanupThread(s, s.current);
    var finished := cleaned.WithThread(s.current, cleaned.Current().(state := Finished));
    assert IdsMatch(finished.threads);
    LoadNextKeepsCore(Saved(finished, f));
  }

  lemma SyscallKeepsCore(s: KState, call: Call, stackOk: bool)
    requires Core(s) && CallIsUsable(s, call)
    ensures var r := HandleSyscall(s, call, stackOk);
            r.exit.None? && LoadNextThread(r).exit.None? ==> Core(LoadNextThread(r))
  {
    if stackOk { SyscallSettles(s, call); } else { StackErrorSettles(s, call); }
    var r := HandleSyscall(s, call, stackOk);
    if r.exit.None? {
      LoadNextKeepsCore(r);
    }
  }

  lemma SavedKeepsIds(s: KState, f: Frame)
    requires Core(s)
    ensures var x := Saved(s, f);
            && x.WF() && IdsMatch(x.threads) && OnlyRuns(x.threads, s.current) && CanSchedule(x.threads, s.current)
            && x == s.(threads := x.threads) && |x.threads| == |s.threads|
  {
  }

  lemma SyscallStepKeepsCore(s: KState, f: Frame, call: Call, stackOk: bool)
    requires Core(s) && Allowed(s, Syscall(f, call, stackOk))
    ensures Step(s, Syscall(f, call, stackOk)).exit.None? ==> Core(Step(s, Syscall(f, call, stackOk)))
  {
    SavedKeepsIds(s, f);
    assert CallIsUsable(Saved(s, f), call);
    SyscallKeepsCore(Saved(s, f), call, stackOk);
  }

  lemma StepKeepsCore(s: KState, e: Event)
    requires Core(s) && Allowed(s, e)
    ensures Step(s, e).exit.None? ==> Core(Step(s, e))
  {
    match e {
      case Syscall(f, call, stackOk) => SyscallStepKeepsCore(s, f, call, stackOk);
      case ThreadSwitch(f) => LoadNextKeepsCore(Saved(s, f));
      case TimerTick(f) => LoadNextKeepsCore(Saved(s, f));
      case TimerControl(f) => LoadNextKeepsCore(Saved(s, f).(next := s.current));
      case ThreadExit(f) => ExitKeepsCore(s, f);
      case _ =>
    }
  }

  /** A cold kernel starts with a thread in slot 0, unless it has no page for its program. */
  lemma BootEstablishesCore(s: KState, start: StartUp)
    requires IsCold(s)
    ensures Booted(s, start).exit == if start.Program? && s.pages == [] then Some(1) else None
    ensures Booted(s, start).exit.None? ==> Core(Booted(s, start))
  {
    var first := WithFirstThread(s, start);
    assert IsReusable(s.threads[0]);
    if first.1 != INVALID_THREAD {
      FirstThreadIsFound(s, start);
      LoadNextKeepsCore(first.0);
    }
  }

  lemma FirstThreadIsFound(s: KState, start: StartUp)
    requires IsCold(s) && WithFirstThread(s, start).1 != INVALID_THREAD
    ensures var x := WithFirstThread(s, start).0;
            && x.current == NULL && x.next == NULL && x.exit.None? && |x.threads| == |s.threads|
            && IdsMatch(x.threads) && OnlyRuns(x.threads, NULL) && Target(x) == 0 && x.threads[0].id == 0
            && DoScheduler(x) == SwitchTo(x, 0) && Booted(s, start) == Resumed(SwitchTo(x, 0))
  {
    var x := WithFirstThread(s, start).0;
    FirstThreadIs(s, start);
    assert CanSchedule(x.threads, 0);
    assert FirstSchedulable(x.threads, 0, |x.threads|) == 0;
  }

  /** The first switch keeps everybody's mail and all condition variables. */
  lemma FirstSwitchKeeps(x: KState)
    requires x.WF() && x.current == NULL && CanSchedule(x.threads, 0)
    ensures var r := Resumed(SwitchTo(x, 0));
            && r.condVars == x.condVars && |r.threads| == |x.threads|
            && forall i | 0 <= i < |x.threads| :: r.threads[i].messages == x.threads[i].messages
  {
  }

  /** Slot 0 holds the first thread, and nothing else has changed but the count of its page. */
  lemma FirstThreadIs(s: KState, start: StartUp)
    requires IsCold(s) && WithFirstThread(s, start).1 != INVALID_THREAD
    ensures var x := WithFirstThread(s, start).0; var t := x.threads[0];
            && WithFirstThread(s, start).1 == 0 && FirstReusable(s.threads, 0) == 0
            && x == s.(threads := s.threads[0 := t], pages := WithHolder(s.pages, t.codeBackingPage))
            && t.id == 0 && t.state == Init && t.codeBackingPage == (if start.Program? then 0 else INVALID_PAGE)
            && t.permissions == TPERM_ALL && t.stackEnd == s.threads[0].stackEnd
            && t.child == t.parent == INVALID_THREAD
            && |t.frames| == 1 && t.frames[0].pc == THREAD_START
            && t.messages == s.threads[0].messages.(next := 0, end := 0, full := false)
    ensures start.Program? ==> 0 < |s.pages|
  {
    assert IsReusable(s.threads[0]);
    AllPermissions();
  }

  lemma AllPermissions()
    ensures TPERM_ALL & !(0 as bv16) == TPERM_ALL
  {
  }

  /** In every run from boot, whenever user code runs: each slot's id is its index or invalid, any
      running thread is the current one, and the current thread can be scheduled. */
  lemma {:induction false} EveryRunKeepsCore(s: KState, es: seq<Event>)
    requires Core(s) && IsRun(s, es) && Run(s, es).exit.None?
    ensures Core(Run(s, es))
    decreases |es|
  {
    if es == [] {
    } else {
      RunGoesOn(s, es);
      StepKeepsCore(s, es[0]);
      EveryRunKeepsCore(Step(s, es[0]), es[1..]);
    }
  }

  /** Only the last step of a run can end the kernel. */
  lemma RunGoesOn(s: KState, es: seq<Event>)
    requires IsRun(s, es) && es != [] && Run(s, es).exit.None?
    ensures Step(s, es[0]).exit.None?
  {
    var r := Step(s, es[0]);
    assert IsRun(r, es[1..]) && Run(s, es) == Run(r, es[1..]);
  }
}
