/**
 What a kernel entry does besides scheduling.  A step saves a context, has one effect, perhaps
 runs the scheduler, and restores a context; most invariants only depend on the effect.
 */
module Effects {
  import opened Basics
  import opened Threads
  import opened Scheduler
  import opened Lifecycle
  import opened Rings
  import opened Steps
  import opened CoreInvariant

  predicate HasEnded(t: Thread) {
    t.state == Finished || t.state == Cancelled
  }

  /** Saving, scheduling and restoring may do no more than this to a thread record. */
  ghost predicate Touched(t: Thread, u: Thread) {
    Rescheduled(t, u) && (HasEnded(t) <==> HasEnded(u)) && (t.state == Waiting <==> u.state == Waiting)
  }

  /** Saving, scheduling and restoring may do no more than this to the kernel. */
  ghost predicate OnlyTouched(s: KState, r: KState) {
    && r == s.(threads := r.threads, current := r.current, next := r.next, info := r.info, pages := r.pages,
               codePage := r.codePage, exit := r.exit, cpu := r.cpu)
    && |r.threads| == |s.threads| && (forall i | 0 <= i < |s.threads| :: Touched(s.threads[i], r.threads[i]))
    && |r.pages| == |s.pages| && (forall p | 0 <= p < |s.pages| :: r.pages[p].refCount == s.pages[p].refCount)
  }

  /** The event is a kernel entry, with this saved context. */
  predicate IsEntry(e: Event) {
    e.Syscall? || e.ThreadSwitch? || e.TimerTick? || e.TimerControl? || e.ThreadExit?
  }

  /** The state a step's effect starts from: the context saved, and errno cleared if logged. */
  function Entered(s: KState, e: Event): (r: KState)
    requires s.WF() && s.current != NULL
    ensures r.WF() && r.current == s.current
  {
    if !IsEntry(e) then s
    else
      var saved := Saved(s, e.frame);
      if e.Syscall? && LogsErrNo(s) then saved.WithErrNo(0) else saved
  }

  ghost function CallEffect(s: KState, call: Call): (r: KState)
    requires s.WF() && s.current != NULL && CallIsUsable(s, call)
    ensures r.WF()
  {
    match call
    case Yield(_, _) => s
    case ThreadWait => s.WithThread(s.current, s.Current().(state := Waiting))
    case ThreadCancel(tid) =>
      var i := if tid == CURRENT_THREAD then s.Current().id else tid;
      if IsValidThread(s.threads, i) then CancelSlot(s, i) else s
    case CondVar(CvWait, Some(c)) =>
      var w := WithCondVar(s, c, Enqueued(s.condVars[c], ThreadId(s)));
      w.WithThread(s.current, s.Current().(state := Waiting))
    case _ => Dispatch(s, call).0
  }

  /** The step's effect, scheduling aside. */
  ghost function Effect(s: KState, e: Event): (r: KState)
    requires s.WF() && s.current != NULL && (e.Syscall? ==> CallIsUsable(s, e.call))
    requires e.LoadImage? ==> s.Current().codeBackingPage != INVALID_PAGE
    ensures r.WF()
  {
    match e
    case UserErrno(v) => s.WithErrNo(v)
    case UserCode(page) => s.(codePage := page)
    case LoadImage(page) => s.(pages := WrittenBack(s.pages, s.Current().codeBackingPage, page))
    case Syscall(_, call, stackOk) => if stackOk then CallEffect(s, call) else Invalidated(s)
    case ThreadExit(_) =>
      var cleaned := CleanupThread(s, s.current);
      cleaned.WithThread(s.current, cleaned.Current().(state := Finished))
    case _ => s
  }

  /** The event is a handled call. */
  predicate IsCall(e: Event) {
    e.Syscall? && e.stackOk
  }

  /** The event may give slot i a new life. */
  ghost predicate StartsLife(s: KState, e: Event, i: int)
    requires s.WF()
  {
    && IsCall(e)
    && ((e.call.AddThread? && i == FirstReusable(s.threads, 0)) || (e.call.Restart? && i == s.current))
  }

  lemma {:induction false} SameReusable(ts: seq<Thread>, us: seq<Thread>, from: nat)
    requires |ts| == |us| && from <= |ts| && forall i | 0 <= i < |ts| :: IsReusable(ts[i]) <==> IsReusable(us[i])
    ensures FirstReusable(ts, from) == FirstReusable(us, from)
    decreases |ts| - from
  {
    if from == |ts| {
    } else {
      SameReusable(ts, us, from + 1);
    }
  }

  // ---- Calls with a small effect

  /** Creation, properties, restart and cancellation aside, a call changes at most the state and
      the messages in a thread record. */
  predicate IsPlain(call: Call) {
    !call.AddThread? && !call.SetThreadProperty? && !call.Restart? && !call.ThreadCancel?
  }

  predicate SameExceptMail(t: Thread, u: Thread) {
    u == t.(state := u.state, messages := u.messages)
  }

  /** What a plain call may change: states towards suspended or waiting, mail for the mail calls, and
      each other part only by the calls made for it. */
  ghost predicate OnlyPlainChanges(s: KState, call: Call, r: KState) {
    && |r.threads| == |s.threads| && r.pages == s.pages && r.codePage == s.codePage
    && (!call.SetKernelConfig? ==> r.config == s.config)
    && (!(call.Malloc? || call.Realloc? || call.Free?) ==> r.heap == s.heap)
    && (!call.CondVar? ==> r.condVars == s.condVars)
    && forall i | 0 <= i < |s.threads| ::
         && SameExceptMail(s.threads[i], r.threads[i])
         && (call.SendMsg? || call.GetMsg? || r.threads[i].messages == s.threads[i].messages)
         && (r.threads[i].state == s.threads[i].state
             || r.threads[i].state == Suspended || r.threads[i].state == Waiting)
         && (s.threads[i].state == Waiting && !call.CondVar? && !(call.ThreadWake? && call.tid == i) ==>
               r.threads[i].state == Waiting)
  }

  /** Threads are at most woken, and besides only condition variables change. */
  ghost predicate OnlyWakes(s: KState, r: KState) {
    && r == s.(threads := r.threads, condVars := r.condVars) && |r.threads| == |s.threads|
    && forall i | 0 <= i < |s.threads| ::
         && r.threads[i] == s.threads[i].(state := r.threads[i].state)
         && (r.threads[i].state == s.threads[i].state || r.threads[i].state == Suspended)
  }

  lemma SignalOnlyWakes(s: KState, c: nat)
    requires s.WF() && c < |s.condVars|
    ensures OnlyWakes(s, Signalled(s, c))
  {
  }

  lemma {:induction false} BroadcastOnlyWakes(s: KState, c: nat)
    requires s.WF() && c < |s.condVars|
    ensures OnlyWakes(s, Broadcasted(s, c))
    decreases BroadcastBound(s.condVars[c])
  {
    if !HasWaiter(s.condVars[c]) {
    } else {
      BroadcastBoundDecreases(s.condVars[c], |s.threads|);
      SignalOnlyWakes(s, c);
      BroadcastOnlyWakes(Signalled(s, c), c);
    }
  }

  lemma CondVarEffectIs(s: KState, op: CondVarOp, cv: Option<nat>)
    requires s.WF() && s.current != NULL && CallIsUsable(s, CondVar(op, cv)) && (op != CvWait || cv.None?)
    ensures CallEffect(s, CondVar(op, cv)) == CondVarCall(s, op, cv).0
  {
  }

  lemma CondVarKeepsThreads(s: KState, op: CondVarOp, cv: Option<nat>)
    requires s.WF() && s.current != NULL && CallIsUsable(s, CondVar(op, cv))
    ensures OnlyPlainChanges(s, CondVar(op, cv), CallEffect(s, CondVar(op, cv)))
  {
    if op == CvWait && cv.Some? {
      WaitKeepsThreads(s, cv.value);
    } else {
      CondVarEffectIs(s, op, cv);
      if cv.Some? {
        SignalOnlyWakes(s, cv.value);
        BroadcastOnlyWakes(s, cv.value);
      }
    }
  }

  lemma WaitKeepsThreads(s: KState, c: nat)
    requires s.WF() && s.current != NULL && c < |s.condVars|
    ensures var w := WithCondVar(s, c, Enqueued(s.condVars[c], ThreadId(s)));
            CallEffect(s, CondVar(CvWait, Some(c))) == w.WithThread(s.current, s.Current().(state := Waiting))
  {
  }

  lemma MailCallsKeepThreads(s: KState, call: Call)
    requires s.WF() && s.current != NULL && (call.GetMsg? || call.SendMsg?)
    ensures OnlyPlainChanges(s, call, CallEffect(s, call))
  {
  }

  lemma StateCallsKeepThreads(s: KState, call: Call)
    requires s.WF() && s.current != NULL && (call.ThreadWake? || call.ThreadWait? || call.Yield?)
    ensures OnlyPlainChanges(s, call, CallEffect(s, call))
  {
  }

  lemma OutsideCallKeepsThreads(s: KState, call: Call)
    requires s.WF() && s.current != NULL && CallIsUsable(s, call) && IsOutside(call)
    ensures var r := CallEffect(s, call);
            && r.threads == s.threads && r.pages == s.pages && r.codePage == s.codePage && r.condVars == s.condVars
            && (!call.SetKernelConfig? ==> r.config == s.config)
            && (!(call.Malloc? || call.Realloc? || call.Free?) ==> r.heap == s.heap)
  {
    OutsideCallIs(s, call);
    assert CallEffect(s, call) == Dispatch(s, call).0;
    OutsideCallConfigures(s, call);
  }

  lemma OutsideCallConfigures(s: KState, call: Call)
    requires s.WF() && s.current != NULL && CallIsUsable(s, call) && IsOutside(call)
    ensures var r := Dispatch(s, call).0;
            && (!call.SetKernelConfig? ==> r.config == s.config)
            && (!(call.Malloc? || call.Realloc? || call.Free?) ==> r.heap == s.heap)
  {
  }

  lemma PlainCallKeeps(s: KState, call: Call)
    requires s.WF() && s.current != NULL && CallIsUsable(s, call) && IsPlain(call)
    ensures OnlyPlainChanges(s, call, CallEffect(s, call))
  {
    if call.CondVar? {
      CondVarKeepsThreads(s, call.op, call.cv);
    } else if IsOutside(call) {
      OutsideCallKeepsThreads(s, call);
    } else if call.GetMsg? || call.SendMsg? {
      MailCallsKeepThreads(s, call);
    } else {
      StateCallsKeepThreads(s, call);
    }
  }

  /** Calls that never run the scheduler. */
  lemma CallStays(s: KState, call: Call)
    requires Core(s) && CallIsUsable(s, call)
    requires !call.Yield? && !call.ThreadWait? && !call.ThreadCancel? && !call.CondVar?
    ensures Dispatch(s, call).0.next == NULL && CallEffect(s, call) == Dispatch(s, call).0
    ensures Dispatch(s, call).0.current == s.current
  {
  }

  // ---- The other calls, record by record

  /** Record u is a new life in slot i, whose record was t. */
  predicate IsNewLife(t: Thread, u: Thread, i: int) {
    && u.id == i && u.state == Init && u.errNo == 0 && u.pendingSignals == {} && u.stackEnd == t.stackEnd
    && u.messages == t.messages.(next := 0, end := 0, full := false)
    && |u.frames| == 1 && u.frames[0].pc == THREAD_START
  }

  /** Creation changes nothing but the slot it takes, pages and errno. */
  ghost predicate OnlyAdds(s: KState, r: KState, i: int) {
    && r == s.(threads := r.threads, pages := r.pages, info := s.info.(errNo := r.info.errNo))
    && |r.threads| == |s.threads|
    && (forall k | 0 <= k < |s.threads| && k != i :: r.threads[k] == s.threads[k])
    && (0 <= i < |s.threads| ==> r.threads[i] == s.threads[i] || IsNewLife(s.threads[i], r.threads[i], i))
  }

  lemma AddNamedOnlyAdds(s: KState, worker: int, name: Option<string>, args: ThreadArgs, removePermissions: bv16)
    requires s.WF()
    ensures var r := AddNamedThread(s, worker, name, args, removePermissions);
            OnlyAdds(s, r.0, r.1) && (r.1 != NULL ==> IsNewLife(s.threads[r.1], r.0.threads[r.1], r.1))
  {
  }

  lemma AddFromFileOnlyAdds(s: KState, filename: string, removePermissions: bv16)
    requires s.WF()
    ensures OnlyAdds(s, AddThreadFromFile(s, filename, removePermissions).0, FirstReusable(s.threads, 0))
  {
    var p := FindFreeBackingPage(s.pages, 0);
    AddNamedOnlyAdds(s, LOAD_ELF, Some("loader"), ThreadArgs(p, removePermissions as int, 0, 0), 0);
  }

  lemma AddCallOnlyAdds(s: KState, call: Call)
    requires s.WF() && s.current != NULL && call.AddThread?
    ensures OnlyAdds(s, CallEffect(s, call), FirstReusable(s.threads, 0))
  {
    if call.flags.Some? {
      var f := call.flags.value;
      if f.isFile {
        AddFromFileOnlyAdds(s, call.filename, f.removePermissions);
      } else {
        var args := if call.args.Some? then call.args.value else ThreadArgs(0, 0, 0, 0);
        AddNamedOnlyAdds(s, call.worker, call.name, args, f.removePermissions);
      }
    }
  }

  /** Setting a property keeps a thread's identity, state, mail, page and errno. */
  predicate SameButProperties(t: Thread, u: Thread) {
    u == t.(child := u.child, parent := u.parent, name := u.name, permissions := u.permissions, frames := u.frames,
            pendingSignals := u.pendingSignals, signalHandler := u.signalHandler)
  }

  ghost predicate OnlySetsProperties(s: KState, r: KState) {
    && r == s.(threads := r.threads, info := s.info.(errNo := r.info.errNo))
    && |r.threads| == |s.threads| && forall i | 0 <= i < |s.threads| :: SameButProperties(s.threads[i], r.threads[i])
  }

  lemma WithPropertyKeeps(s: KState, i: int, p: Property)
    requires s.WF() && IsValidThread(s.threads, i)
    ensures OnlySetsProperties(s, WithProperty(s, i, p).0)
  {
  }

  lemma SetPropertyKeeps(s: KState, tid: int, value: Option<Property>)
    requires s.WF()
    ensures OnlySetsProperties(s, SetPropertyCall(s, tid, value).0)
  {
    if value.Some? && IsValidThread(s.threads, ResolvedTid(s, tid)) {
      WithPropertyKeeps(s, ResolvedTid(s, tid), value.value);
    }
  }

  /** A restart gives the running thread a new life and brings in its page. */
  ghost predicate OnlyRestarts(s: KState, r: KState)
    requires s.WF() && s.current != NULL
  {
    var t := s.Current();
    && r == s.(threads := r.threads, codePage := r.codePage) && |r.threads| == |s.threads|
    && (forall k | 0 <= k < |s.threads| && k != s.current :: r.threads[k] == s.threads[k])
    && IsNewLife(t, r.threads[s.current].(parent := INVALID_THREAD), t.id)
    && r.threads[s.current].codeBackingPage == t.codeBackingPage
    && t.codeBackingPage < |s.pages| && r.codePage == s.pages[t.codeBackingPage].data
  }

  lemma RestartChangesCurrent(s: KState, call: Call)
    requires s.WF() && s.current != NULL && CallIsUsable(s, call) && call.Restart?
    ensures OnlyRestarts(s, CallEffect(s, call))
  {
  }

  /** A cancel ends the thread it is meant for, if there is one, with its memory and its page. */
  ghost predicate OnlyCancels(s: KState, tid: int, r: KState)
    requires s.WF() && s.current != NULL
  {
    var i := if tid == CURRENT_THREAD then s.Current().id else tid;
    && r == s.(threads := r.threads, pages := r.pages, heap := r.heap) && |r.threads| == |s.threads|
    && (forall k | 0 <= k < |s.threads| && k != i :: r.threads[k] == s.threads[k])
    && (!IsValidThread(s.threads, i) ==> r == s)
    && (IsValidThread(s.threads, i) ==>
          r.threads[i] == s.threads[i].(state := Cancelled, codeBackingPage := INVALID_PAGE))
  }

  lemma CancelChangesSlot(s: KState, tid: int)
    requires s.WF() && s.current != NULL
    ensures OnlyCancels(s, tid, CallEffect(s, ThreadCancel(tid)))
  {
  }

  /** What a call of each kind may change. */
  ghost predicate CallChanges(s: KState, call: Call, r: KState)
    requires s.WF() && s.current != NULL
  {
    && |r.threads| == |s.threads|
    && (call.AddThread? ==> OnlyAdds(s, r, FirstReusable(s.threads, 0)))
    && (call.SetThreadProperty? ==> OnlySetsProperties(s, r))
    && (call.Restart? ==> OnlyRestarts(s, r))
    && (call.ThreadCancel? ==> OnlyCancels(s, call.tid, r))
    && (IsPlain(call) ==> OnlyPlainChanges(s, call, r))
  }

  lemma CallEffectChanges(s: KState, call: Call)
    requires s.WF() && s.current != NULL && CallIsUsable(s, call)
    ensures CallChanges(s, call, CallEffect(s, call))
  {
    if call.AddThread? {
      AddCallOnlyAdds(s, call);
    } else if call.SetThreadProperty? {
      SetPropertyKeeps(s, call.tid, call.value);
      SetPropertyEffect(s, call);
    } else if call.Restart? {
      RestartChangesCurrent(s, call);
    } else if call.ThreadCancel? {
      CancelChangesSlot(s, call.tid);
    } else {
      PlainCallKeeps(s, call);
    }
  }

  lemma SetPropertyEffect(s: KState, call: Call)
    requires s.WF() && s.current != NULL && CallIsUsable(s, call) && call.SetThreadProperty?
    ensures CallEffect(s, call) == SetPropertyCall(s, call.tid, call.value).0
  {
  }

  lemma EffectKeepsThreadCount(s: KState, e: Event)
    requires Core(s) && (e.Syscall? ==> CallIsUsable(s, e.call))
    requires e.LoadImage? ==> s.Current().codeBackingPage != INVALID_PAGE
    ensures |Effect(s, e).threads| == |s.threads|
  {
    if e.Syscall? && e.stackOk {
      CallKeepsThreadCount(s, e.call);
    }
  }

  lemma CallKeepsThreadCount(s: KState, call: Call)
    requires s.WF() && s.current != NULL && CallIsUsable(s, call)
    ensures |CallEffect(s, call).threads| == |s.threads|
  {
    CallEffectChanges(s, call);
  }

  // ---- The two ways through a syscall

  /** The kernel after a failed stack check has hidden the running thread. */
  function Hidden(s: KState, f: Frame): (r: KState)
    requires s.WF() && s.current != NULL
    ensures r.WF() && r.current == s.current
  {
    WithErrNoForCall(Invalidated(Saved(s, f)))
  }

  /** A failed stack check turns the call into a yield. */
  lemma HiddenStepIs(s: KState, f: Frame, call: Call)
    requires Core(s) && Allowed(s, Syscall(f, call, false))
    ensures var r := Handled(Hidden(s, f), Saved(s, f), YIELD_TO_ANY);
            Step(s, Syscall(f, call, false))
            == if s.config & KCFG_DESTROY_ON_STACK_ERR == 0 then Invalidated(Saved(s, f)).Exit(1)
               else if r.exit.Some? then r else LoadNextThread(r)
  {
  }

  lemma HiddenKeepsIds(s: KState, f: Frame)
    requires Core(s)
    ensures IdsMatch(Hidden(s, f).threads) && OnlyRuns(Hidden(s, f).threads, s.current)
    ensures Hidden(s, f).next == NULL && Hidden(s, f).exit.None?
  {
  }

  lemma BadStackStepIs(s: KState, f: Frame, call: Call)
    requires Core(s) && Allowed(s, Syscall(f, call, false)) && Step(s, Syscall(f, call, false)).exit.None?
    ensures Handled(Hidden(s, f), Saved(s, f), YIELD_TO_ANY).exit.None?
    ensures Step(s, Syscall(f, call, false)) == LoadNextThread(Handled(Hidden(s, f), Saved(s, f), YIELD_TO_ANY))
    ensures IdsMatch(Hidden(s, f).threads) && OnlyRuns(Hidden(s, f).threads, s.current)
    ensures Hidden(s, f).next == NULL && Hidden(s, f).exit.None?
  {
    HiddenStepIs(s, f, call);
    HiddenKeepsIds(s, f);
  }

  /** The state in which a call is handled: the caller's context saved, errno cleared if logged. */
  function CallEntry(s: KState, f: Frame): (r: KState)
    requires s.WF() && s.current != NULL
    ensures r.WF() && r.current == s.current
  {
    WithErrNoForCall(Saved(s, f))
  }

  lemma HandledStepIs(s: KState, f: Frame, call: Call)
    requires Core(s) && Allowed(s, Syscall(f, call, true))
    ensures Core(CallEntry(s, f)) && CallIsUsable(CallEntry(s, f), call)
    ensures var r := Handled(CallEntry(s, f), Saved(s, f), call);
            Step(s, Syscall(f, call, true)) == if r.exit.Some? then r else LoadNextThread(r)
  {
    SavedKeepsCore(s, f, call);
  }

  lemma CallAffects(s: KState, f: Frame, call: Call)
    requires s.WF() && s.current != NULL && CallIsUsable(CallEntry(s, f), call)
    ensures var e := Syscall(f, call, true);
            Entered(s, e) == CallEntry(s, f) && Effect(Entered(s, e), e) == CallEffect(CallEntry(s, f), call)
  {
  }

  lemma CallStepIs(s: KState, f: Frame, call: Call)
    requires Core(s) && Allowed(s, Syscall(f, call, true)) && Step(s, Syscall(f, call, true)).exit.None?
    ensures var e := Syscall(f, call, true);
            && Core(CallEntry(s, f)) && CallIsUsable(CallEntry(s, f), call)
            && Handled(CallEntry(s, f), Saved(s, f), call).exit.None?
            && Step(s, e) == LoadNextThread(Handled(CallEntry(s, f), Saved(s, f), call))
            && Effect(Entered(s, e), e) == CallEffect(CallEntry(s, f), call)
  {
    HandledStepIs(s, f, call);
    CallAffects(s, f, call);
  }

  /** The yield a failed stack check is turned into, as a call of its own. */
  lemma YieldToAnyIs(s: KState, before: KState)
    requires s.WF() && s.next == NULL && s.current != NULL && before.WF() && before.current != NULL
    ensures var r := Handled(s, before, YIELD_TO_ANY); var d := DoScheduler(s);
            && r.exit == d.exit
            && (r.exit.None? ==> r == FinishSyscall(d, before, YIELD_TO_ANY, if d.next != s.current then 1 else 0))
  {
    assert s.(next := NULL) == s;
  }

  // ---- The parts of a step that only touch

  lemma EnteredTouches(s: KState, e: Event)
    requires s.WF() && s.current != NULL
    ensures OnlyTouched(s, Entered(s, e))
  {
  }

  lemma EnteredKeepsCore(s: KState, e: Event)
    requires Core(s)
    ensures Core(Entered(s, e))
    ensures Entered(s, e).config == s.config && Entered(s, e).Current().permissions == s.Current().permissions
    ensures Entered(s, e).Current().codeBackingPage == s.Current().codeBackingPage
  {
  }

  lemma TouchedTwice(s: KState, r: KState, q: KState)
    requires OnlyTouched(s, r) && OnlyTouched(r, q)
    ensures OnlyTouched(s, q)
  {
  }

  /** A thread that is only touched can be scheduled as before. */
  lemma TouchedKeepsSchedulable(s: KState, r: KState)
    requires OnlyTouched(s, r)
    ensures forall i :: CanSchedule(r.threads, i) <==> CanSchedule(s.threads, i)
  {
  }

  lemma SwitchTouches(s: KState, next: int)
    requires s.WF() && 0 <= next < |s.threads| && CanSchedule(s.threads, next)
    ensures OnlyTouched(s, SwitchTo(s, next))
  {
    var r := SwitchTo(s, next);
    forall i | 0 <= i < |s.threads|
      ensures Touched(s.threads[i], r.threads[i])
    {
    }
  }

  lemma SchedulerTouches(s: KState)
    requires s.WF() && IdsMatch(s.threads) && (s.next != NULL ==> CanSchedule(s.threads, s.next))
    ensures DoScheduler(s).exit.None? ==> OnlyTouched(s, DoScheduler(s))
  {
    if Target(s) != NULL {
      SwitchTouches(s, Target(s));
    }
  }

  lemma ResumedTouches(s: KState)
    requires s.WF() && s.next != NULL
    ensures OnlyTouched(s, Resumed(s))
  {
  }

  lemma LoadNextTouches(s: KState)
    requires s.WF() && IdsMatch(s.threads) && (s.next != NULL ==> CanSchedule(s.threads, s.next))
    ensures LoadNextThread(s).exit.None? ==> OnlyTouched(s, LoadNextThread(s))
  {
    if LoadNextThread(s).exit.None? {
      SchedulerTouches(s);
      var chosen := if s.next == NULL then DoScheduler(s) else s;
      ResumedTouches(chosen);
      TouchedTwice(s, chosen, Resumed(chosen));
    }
  }

  lemma SameLivesTouches(s: KState, r: KState)
    requires s.WF() && r.WF() && SameLives(s, r.(next := s.next))
    ensures OnlyTouched(s, r)
  {
  }

  lemma YieldTouches(s: KState, tid: int, kind: int)
    requires Core(s)
    ensures YieldCall(s, tid, kind).0.exit.None? ==> OnlyTouched(s, YieldCall(s, tid, kind).0)
  {
    if kind == YIELD_ANY {
      SchedulerTouches(s);
    } else if kind == YIELD_TO && CanSchedule(s.threads, tid) {
      SchedulerTouches(s.(next := tid));
    }
  }

  lemma WaitTouches(s: KState, op: CondVarOp, cv: Option<nat>)
    requires Core(s) && CallIsUsable(s, CondVar(op, cv))
    ensures CondVarCall(s, op, cv).0.exit.None? ==>
              OnlyTouched(CallEffect(s, CondVar(op, cv)), CondVarCall(s, op, cv).0)
  {
    if op == CvWait && cv.Some? {
      SchedulerTouches(CallEffect(s, CondVar(op, cv)));
    }
  }

  /** Only a thread that cancels itself makes the scheduler run. */
  lemma CancelIs(s: KState, tid: int)
    requires Core(s)
    ensures var x := CallEffect(s, ThreadCancel(tid));
            var i := if tid == CURRENT_THREAD then s.Current().id else tid;
            && x.WF() && x.current == s.current && x.next == s.next
            && (i == s.current ==> x == CancelSlot(s, i))
            && CancelThread(s, tid).0 == if i == s.current then DoScheduler(x) else x
  {
  }

  lemma CancelTouches(s: KState, tid: int)
    requires Core(s)
    ensures CancelThread(s, tid).0.exit.None? ==> OnlyTouched(CallEffect(s, ThreadCancel(tid)), CancelThread(s, tid).0)
  {
    var i := if tid == CURRENT_THREAD then s.Current().id else tid;
    CancelIs(s, tid);
    if i == s.current {
      CancelSelfTouches(s);
    }
  }

  lemma CancelSelfTouches(s: KState)
    requires Core(s)
    ensures var r := DoScheduler(CancelSlot(s, s.current)); r.exit.None? ==> OnlyTouched(CancelSlot(s, s.current), r)
  {
    CancelSlotKeepsIds(s, s.current);
    SchedulerTouches(CancelSlot(s, s.current));
  }

  lemma CancelSlotKeepsIds(s: KState, i: int)
    requires Core(s) && 0 <= i < |s.threads|
    ensures IdsMatch(CancelSlot(s, i).threads) && CancelSlot(s, i).next == NULL
  {
  }

  lemma DispatchTouches(s: KState, call: Call)
    requires Core(s) && CallIsUsable(s, call)
    ensures Dispatch(s, call).0.exit.None? ==> OnlyTouched(CallEffect(s, call), Dispatch(s, call).0)
  {
    if call.Yield? {
      YieldTouches(s, call.tid, call.kind);
    } else if call.ThreadWait? {
      SchedulerTouches(CallEffect(s, call));
    } else if call.ThreadCancel? {
      CancelTouches(s, call.tid);
    } else if call.CondVar? {
      WaitTouches(s, call.op, call.cv);
    } else {
      CallStays(s, call);
    }
  }

  lemma HandledCallTouches(s: KState, before: KState, call: Call)
    requires Core(s) && CallIsUsable(s, call) && before.WF() && before.current != NULL
    ensures Handled(s, before, call).exit.None? ==> OnlyTouched(CallEffect(s, call), Handled(s, before, call))
  {
    DispatchTouches(s, call);
    var done := Dispatch(s, call);
    if done.0.exit.None? {
      var r := FinishSyscall(done.0, before, call, done.1);
      SameLivesTouches(done.0, r);
      TouchedTwice(CallEffect(s, call), done.0, r);
    }
  }

  lemma SyscallTouches(s: KState, call: Call)
    requires Core(s) && CallIsUsable(s, call)
    ensures HandleSyscall(s, call, true).exit.None? ==>
              OnlyTouched(CallEffect(WithErrNoForCall(s), call), HandleSyscall(s, call, true))
  {
    HandledCallTouches(WithErrNoForCall(s), s, call);
  }

  lemma StackErrorTouches(s: KState, call: Call)
    requires Core(s) && CallIsUsable(s, call)
    ensures var entered := WithErrNoForCall(s);
            HandleSyscall(s, call, false).exit.None? ==>
              OnlyTouched(Invalidated(entered), HandleSyscall(s, call, false))
  {
    YieldAnyTouches(WithErrNoForCall(Invalidated(s)), s);
  }

  lemma YieldAnyTouches(s: KState, before: KState)
    requires s.WF() && s.next == NULL && s.current != NULL && IdsMatch(s.threads) && before.WF()
    requires before.current != NULL
    ensures var r := Handled(s, before, YIELD_TO_ANY); r.exit.None? ==> OnlyTouched(s, r)
  {
    SchedulerTouches(s);
    YieldToAnyIs(s, before);
    var d, r := DoScheduler(s), Handled(s, before, YIELD_TO_ANY);
    if r.exit.None? {
      SameLivesTouches(d, r);
      TouchedTwice(s, d, r);
    }
  }

  lemma SavedKeepsCore(s: KState, f: Frame, call: Call)
    requires Core(s) && CallIsUsable(s, call)
    ensures Core(Saved(s, f)) && CallIsUsable(Saved(s, f), call)
  {
  }

  lemma HandledTouches(s: KState, call: Call, stackOk: bool)
    requires Core(s) && CallIsUsable(s, call)
    ensures var entered := WithErrNoForCall(s);
            var r := HandleSyscall(s, call, stackOk);
            r.exit.None? ==>
              && Settled(r) && r.next != NULL
              && OnlyTouched(if stackOk then CallEffect(entered, call) else Invalidated(entered), r)
  {
    if stackOk {
      SyscallTouches(s, call);
      SyscallSettles(s, call);
    } else {
      StackErrorTouches(s, call);
      StackErrorSettles(s, call);
    }
  }

  lemma SyscallStepTouches(s: KState, e: Event)
    requires Core(s) && Allowed(s, e) && e.Syscall? && Step(s, e).exit.None?
    ensures OnlyTouched(Effect(Entered(s, e), e), Step(s, e))
  {
    var saved := Saved(s, e.frame);
    SavedKeepsCore(s, e.frame, e.call);
    HandledTouches(saved, e.call, e.stackOk);
    var r := HandleSyscall(saved, e.call, e.stackOk);
    LoadNextTouches(r);
    TouchedTwice(Effect(Entered(s, e), e), r, LoadNextThread(r));
  }

  /** The running thread's context is saved and it has finished. */
  ghost function Ended(s: KState, f: Frame): (r: KState)
    requires s.WF() && s.current != NULL
    ensures r.WF()
  {
    Effect(Entered(s, ThreadExit(f)), ThreadExit(f))
  }

  /** Ending a thread and saving its context can be done in either order. */
  lemma ExitStepIs(s: KState, f: Frame)
    requires Allowed(s, ThreadExit(f))
    ensures Step(s, ThreadExit(f)) == LoadNextThread(Ended(s, f))
  {
    var cleaned := CleanupThread(s, s.current);
    var finished := Saved(cleaned.WithThread(s.current, cleaned.Current().(state := Finished)), f);
    assert finished.threads == Ended(s, f).threads;
  }

  lemma EndedIs(s: KState, f: Frame)
    requires s.WF() && s.current != NULL
    ensures var x := Ended(s, f); var t := Saved(s, f).Current();
            && x == s.(threads := x.threads, pages := x.pages, heap := x.heap)
            && x.threads == s.threads[s.current := t.(state := Finished, codeBackingPage := INVALID_PAGE)]
  {
  }

  lemma ExitTouches(s: KState, f: Frame)
    requires Core(s) && Allowed(s, ThreadExit(f)) && Step(s, ThreadExit(f)).exit.None?
    ensures OnlyTouched(Effect(Entered(s, ThreadExit(f)), ThreadExit(f)), Step(s, ThreadExit(f)))
  {
    ExitStepIs(s, f);
    EndedIs(s, f);
    LoadNextTouches(Ended(s, f));
  }

  lemma SwitchStepTouches(s: KState, f: Frame)
    requires Core(s) && LoadNextThread(Saved(s, f)).exit.None?
    ensures OnlyTouched(Saved(s, f), LoadNextThread(Saved(s, f)))
  {
    LoadNextTouches(Saved(s, f));
  }

  lemma TimerControlTouches(s: KState, f: Frame)
    requires Core(s)
    ensures OnlyTouched(Saved(s, f), LoadNextThread(Saved(s, f).(next := s.current)))
  {
    LoadNextTouches(Saved(s, f).(next := s.current));
  }

  /** Apart from its effect, a step only touches. */
  lemma StepTouches(s: KState, e: Event)
    requires Core(s) && Allowed(s, e) && Step(s, e).exit.None?
    ensures OnlyTouched(Effect(Entered(s, e), e), Step(s, e))
  {
    match e {
      case Syscall(_, _, _) => SyscallStepTouches(s, e);
      case ThreadSwitch(f) => SwitchStepTouches(s, f);
      case TimerTick(f) => SwitchStepTouches(s, f);
      case TimerControl(f) => TimerControlTouches(s, f);
      case ThreadExit(f) => ExitTouches(s, f);
      case _ =>
    }
  }

  lemma StepKeepsThreadCount(s: KState, e: Event)
    requires Core(s) && Allowed(s, e) && Step(s, e).exit.None?
    ensures |Step(s, e).threads| == |Effect(Entered(s, e), e).threads| == |s.threads|
  {
    StepTouches(s, e);
    EnteredKeepsCore(s, e);
    EffectKeepsThreadCount(Entered(s, e), e);
  }
}
