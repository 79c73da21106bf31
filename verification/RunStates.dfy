/** The run states: what every step makes of the state of every thread. */
module RunStates {
  import opened Basics
  import opened Threads
  import opened Scheduler
  import opened Lifecycle
  import opened Rings
  import opened Steps
  import opened CoreInvariant
  import opened Effects
  import opened Choices
  import opened StepParts
  import opened CallSteps
  import opened NextThread
  import opened Answers
  import opened Waiters
  import opened Mailboxes
  import NewLives

  // ---- What a step does apart from the switch

  /** The operation on condition variable c wakes thread i: the one that has waited longest, or everybody. */
  ghost predicate IsWokenBy(s: KState, op: CondVarOp, c: nat, i: int)
    requires s.WF() && c < |s.condVars|
  {
    match op
    case CvSignal => WaitLine(s, c) != [] && WaitLine(s, c)[0] == i
    case CvBroadcast => i in WaitLine(s, c)
    case _ => false
  }

  /** A call's effect on the state of thread i. */
  ghost function CallState(s: KState, call: Call, i: int): ThreadState
    requires s.WF() && s.current != NULL && CallIsUsable(s, call) && 0 <= i < |s.threads|
  {
    var state := s.threads[i].state;
    match call
    case AddThread(_, _, _, _, _) => if i == CreatedId(s, call) then Init else state
    case Restart(_, _, _, _) => if i == s.current then Init else state
    case ThreadWait => if i == s.current then Waiting else state
    case ThreadWake(tid) => if i == tid && s.threads[i].id != INVALID_THREAD then Suspended else state
    case ThreadCancel(tid) =>
      if i == CancelledSlot(s, tid) && s.threads[i].id != INVALID_THREAD then Cancelled else state
    case CondVar(op, cv) =>
      if cv.None? then state
      else if op == CvWait && i == s.current then Waiting
      else if IsWokenBy(s, op, cv.value, i) then Suspended else state
    case _ => state
  }

  /** A step's effect on the state of thread i. */
  ghost function EffectState(s: KState, e: Event, i: int): ThreadState
    requires Allowed(s, e) && 0 <= i < |s.threads|
  {
    if e.ThreadExit? && i == s.current then Finished
    else if IsCall(e) then CallState(s, e.call, i)
    else s.threads[i].state
  }

  ghost predicate HasStates(s: KState, call: Call, r: KState)
    requires s.WF() && s.current != NULL && CallIsUsable(s, call)
  {
    |r.threads| == |s.threads| && forall i | 0 <= i < |s.threads| :: r.threads[i].state == CallState(s, call, i)
  }

  lemma AddStates(s: KState, call: Call)
    requires Core(s) && call.AddThread?
    ensures HasStates(s, call, CallEffect(s, call))
  {
    if CreatedId(s, call) != INVALID_THREAD {
      NewLives.CallCreates(s, call);
    } else {
      NewLives.RefusalCreatesNothing(s, call);
    }
  }

  lemma CancelStates(s: KState, call: Call)
    requires Core(s) && call.ThreadCancel?
    ensures HasStates(s, call, CallEffect(s, call))
  {
    CancelChangesSlot(s, call.tid);
  }

  lemma CondVarStates(s: KState, call: Call)
    requires Core(s) && call.CondVar? && CallIsUsable(s, call) && RingsHoldWaiting(s)
    ensures HasStates(s, call, CallEffect(s, call))
  {
    if call.cv.Some? && call.op == CvWait {
      WaitKeepsThreads(s, call.cv.value);
    } else if call.cv.Some? && call.op == CvSignal {
      SignalStates(s, call);
    } else if call.cv.Some? && call.op == CvBroadcast {
      BroadcastStates(s, call);
    } else {
      CondVarEffectIs(s, call.op, call.cv);
    }
  }

  lemma BroadcastStates(s: KState, call: Call)
    requires Core(s) && CallIsUsable(s, call) && call.CondVar? && call.op == CvBroadcast && call.cv.Some?
    requires RingsHoldWaiting(s)
    ensures HasStates(s, call, CallEffect(s, call))
  {
    CondVarEffectIs(s, call.op, call.cv);
    BroadcastWakesExactly(s, call.cv.value);
  }

  lemma SignalStates(s: KState, call: Call)
    requires Core(s) && CallIsUsable(s, call) && call.CondVar? && call.op == CvSignal && call.cv.Some?
    requires RingsHoldWaiting(s)
    ensures HasStates(s, call, CallEffect(s, call))
  {
    if HasWaiter(s.condVars[call.cv.value]) {
      SignalWakesOldest(s, call.cv.value);
    }
  }

  lemma SetPropertyStates(s: KState, call: Call)
    requires Core(s) && CallIsUsable(s, call) && call.SetThreadProperty?
    ensures HasStates(s, call, CallEffect(s, call))
  {
    SetPropertyEffect(s, call);
    SetPropertyKeeps(s, call.tid, call.value);
  }

  lemma StateCallStates(s: KState, call: Call)
    requires Core(s) && CallIsUsable(s, call) && (call.Restart? || call.ThreadWait? || call.ThreadWake? || call.Yield?)
    ensures HasStates(s, call, CallEffect(s, call))
  {
  }

  lemma OtherStates(s: KState, call: Call)
    requires Core(s) && CallIsUsable(s, call) && (IsOutside(call) || call.GetMsg? || call.SendMsg?)
    ensures HasStates(s, call, CallEffect(s, call))
  {
    if IsOutside(call) {
      OutsideCallKeepsThreads(s, call);
    } else {
      MailStates(s, call);
    }
  }

  lemma MailStates(s: KState, call: Call)
    requires Core(s) && (call.GetMsg? || call.SendMsg?)
    ensures HasStates(s, call, CallEffect(s, call))
  {
  }

  lemma CallStates(s: KState, call: Call)
    requires Core(s) && CallIsUsable(s, call) && (call.CondVar? ==> RingsHoldWaiting(s))
    ensures HasStates(s, call, CallEffect(s, call))
  {
    if call.AddThread? {
      AddStates(s, call);
    } else if call.ThreadCancel? {
      CancelStates(s, call);
    } else if call.CondVar? {
      CondVarStates(s, call);
    } else if call.SetThreadProperty? {
      SetPropertyStates(s, call);
    } else if IsOutside(call) || call.GetMsg? || call.SendMsg? {
      OtherStates(s, call);
    } else {
      StateCallStates(s, call);
    }
  }

  // ---- Steps

  lemma EntryCallStates(s: KState, f: Frame, call: Call)
    requires IsHandled(s, f, call) && (call.CondVar? ==> RingsHoldWaiting(s))
    ensures var x := CallEntry(s, f);
            Core(x) && CallIsUsable(x, call) && HasStates(s, call, CallEffect(x, call))
  {
    var x := CallEntry(s, f);
    CallStepIs(s, f, call);
    EntrySameForResults(s, f);
    if call.CondVar? {
      EnteredTouches(s, Syscall(f, call, true));
      CallAffects(s, f, call);
      TouchKeepsRings(s, x);
    }
    CallStates(x, call);
    SameCallStates(s, x, call);
  }

  lemma SameCallStates(s: KState, x: KState, call: Call)
    requires SameForResults(s, x) && CallIsUsable(s, call) && CallIsUsable(x, call)
    ensures forall i | 0 <= i < |s.threads| :: CallState(x, call, i) == CallState(s, call, i)
  {
    if call.AddThread? {
      SameCreatedId(s, x, call);
    } else if call.CondVar? && call.cv.Some? {
      assert WaitLine(x, call.cv.value) == WaitLine(s, call.cv.value);
    }
  }

  lemma AffectedStates(s: KState, e: Event)
    requires Core(s) && Allowed(s, e) && IsEntry(e) && Step(s, e).exit.None?
    requires IsCall(e) && e.call.CondVar? ==> RingsHoldWaiting(s)
    ensures var x := Affected(s, e);
            |x.threads| == |s.threads| && forall i | 0 <= i < |s.threads| :: x.threads[i].state == EffectState(s, e, i)
  {
    if IsCall(e) {
      EntryCallStates(s, e.frame, e.call);
      CallAffects(s, e.frame, e.call);
    } else if e.ThreadExit? {
      EndedIs(s, e.frame);
    } else {
      OtherAffectedStates(s, e);
    }
  }

  lemma OtherAffectedStates(s: KState, e: Event)
    requires Core(s) && Allowed(s, e) && IsEntry(e) && !IsCall(e) && !e.ThreadExit?
    ensures var x := Affected(s, e);
            |x.threads| == |s.threads| && forall i | 0 <= i < |s.threads| :: x.threads[i].state == EffectState(s, e, i)
  {
    EnteredStates(s, e);
    QuietEffectStates(Entered(s, e), e);
  }

  lemma EnteredStates(s: KState, e: Event)
    requires s.WF() && s.current != NULL
    ensures var x := Entered(s, e);
            |x.threads| == |s.threads| && forall i | 0 <= i < |s.threads| :: x.threads[i].state == s.threads[i].state
  {
  }

  lemma QuietEffectStates(s: KState, e: Event)
    requires s.WF() && s.current != NULL && IsEntry(e) && !IsCall(e) && !e.ThreadExit?
    requires e.Syscall? ==> CallIsUsable(s, e.call)
    ensures var x := Effect(s, e);
            |x.threads| == |s.threads| && forall i | 0 <= i < |s.threads| :: x.threads[i].state == s.threads[i].state
  {
  }

  /** The state of thread i after a step, in which thread `next` runs on. */
  ghost function StateAfter(s: KState, e: Event, next: int, i: int): ThreadState
    requires Allowed(s, e) && 0 <= i < |s.threads|
  {
    var state := EffectState(s, e, i);
    if Schedules(s, e) && i == next then Running
    else if Schedules(s, e) && i == s.current && state == Running then Suspended
    else state
  }

  /** Every step moves every thread's state exactly so. */
  lemma StepMovesStates(s: KState, e: Event)
    requires Core(s) && Allowed(s, e) && Step(s, e).exit.None?
    requires IsCall(e) && e.call.CondVar? ==> RingsHoldWaiting(s)
    ensures var r := Step(s, e);
            && |r.threads| == |s.threads|
            && forall i | 0 <= i < |s.threads| :: r.threads[i].state == StateAfter(s, e, r.current, i)
  {
    if IsEntry(e) {
      AffectedStates(s, e);
      StepSwitchesStates(s, e);
      StatesTogether(s, e, Affected(s, e), Step(s, e));
    }
  }

  lemma StatesTogether(s: KState, e: Event, x: KState, r: KState)
    requires Allowed(s, e) && x == Affected(s, e) && StatesSwitched(s, e, r) && |x.threads| == |s.threads|
    requires forall i | 0 <= i < |s.threads| :: x.threads[i].state == EffectState(s, e, i)
    ensures |r.threads| == |s.threads|
    ensures forall i | 0 <= i < |s.threads| :: r.threads[i].state == StateAfter(s, e, r.current, i)
  {
  }

  /** A thread that is woken can be scheduled, whatever it waited for or had been; its waker learns whether
      there is such a thread. */
  lemma WokenCanRun(s: KState, f: Frame, tid: int)
    requires IsHandled(s, f, ThreadWake(tid))
    ensures var r := Step(s, Syscall(f, ThreadWake(tid), true));
            && r.current == s.current && r.cpu == f.(arg0 := Flag(IsValidThread(s.threads, tid)))
            && (CanSchedule(r.threads, tid) <==> IsValidThread(s.threads, tid))
  {
    QuietStays(s, ThreadWake(tid));
    AnswerArrives(s, f, ThreadWake(tid));
    StepWakes(s, f, tid);
  }

  lemma StepWakes(s: KState, f: Frame, tid: int)
    requires IsHandled(s, f, ThreadWake(tid))
    ensures var r := Step(s, Syscall(f, ThreadWake(tid), true));
            CanSchedule(r.threads, tid) <==> IsValidThread(s.threads, tid)
  {
    StepMovesStates(s, Syscall(f, ThreadWake(tid), true));
    WakeKeepsIds(s, f, tid);
  }

  lemma WakeKeepsIds(s: KState, f: Frame, tid: int)
    requires IsHandled(s, f, ThreadWake(tid))
    ensures var r := Step(s, Syscall(f, ThreadWake(tid), true));
            |r.threads| == |s.threads| && forall i | 0 <= i < |s.threads| :: r.threads[i].id == s.threads[i].id
  {
    var e := Syscall(f, ThreadWake(tid), true);
    StepTouches(s, e);
    EnteredTouches(s, e);
    PlainCallKeeps(Entered(s, e), e.call);
  }

  // ---- Threads with a broken stack

  /** A thread whose stack check fails is left without id and name, and another thread runs. */
  lemma StackErrorHides(s: KState, f: Frame, call: Call)
    requires Core(s) && Allowed(s, Syscall(f, call, false)) && Step(s, Syscall(f, call, false)).exit.None?
    ensures var r := Step(s, Syscall(f, call, false));
            && r.current != s.current && |r.threads| == |s.threads|
            && r.threads[s.current].id == INVALID_THREAD && r.threads[s.current].name == ""
  {
    var e := Syscall(f, call, false);
    StepTouches(s, e);
    HiddenIs(s, f, call);
    HiddenRecord(s, f);
    StepKeepsCore(s, e);
  }

  lemma HiddenRecord(s: KState, f: Frame)
    requires s.WF() && s.current != NULL
    ensures var x := Hidden(s, f);
            && |x.threads| == |s.threads|
            && x.threads[s.current].id == INVALID_THREAD && x.threads[s.current].name == ""
  {
  }

  lemma InvalidStays(s: KState, e: Event, i: int)
    requires Core(s) && Allowed(s, e) && Step(s, e).exit.None? && 0 <= i < |s.threads| && !StartsLife(s, e, i)
    requires s.threads[i].id == INVALID_THREAD
    ensures |Step(s, e).threads| == |s.threads| && Step(s, e).threads[i].id == INVALID_THREAD
  {
    var x := Entered(s, e);
    EnteredTouches(s, e);
    EnteredKeepsCore(s, e);
    NewLives.EntryStartsSame(s, e, i);
    EffectKeepsInvalid(x, e, i);
    StepTouches(s, e);
  }

  lemma EffectKeepsInvalid(s: KState, e: Event, i: int)
    requires Core(s) && (e.Syscall? ==> CallIsUsable(s, e.call)) && 0 <= i < |s.threads| && !StartsLife(s, e, i)
    requires e.LoadImage? ==> s.Current().codeBackingPage != INVALID_PAGE
    requires s.threads[i].id == INVALID_THREAD
    ensures |Effect(s, e).threads| == |s.threads| && Effect(s, e).threads[i].id == INVALID_THREAD
  {
    if IsCall(e) {
      CallEffectChanges(s, e.call);
      ChangesKeepInvalid(s, e.call, CallEffect(s, e.call), i);
    }
  }

  lemma ChangesKeepInvalid(s: KState, call: Call, r: KState, i: int)
    requires Core(s) && CallChanges(s, call, r) && 0 <= i < |s.threads| && s.threads[i].id == INVALID_THREAD
    requires !StartsLife(s, Syscall(s.cpu, call, true), i)
    ensures r.threads[i].id == INVALID_THREAD
  {
  }

  /** Such a thread never runs again; only a new life can take its slot. */
  lemma {:induction false} HiddenNeverRuns(s: KState, es: seq<Event>, i: int)
    requires Core(s) && IsRun(s, es) && Run(s, es).exit.None? && 0 <= i < |s.threads|
    requires s.threads[i].id == INVALID_THREAD && LivesThrough(s, es, i)
    ensures var r := Run(s, es); |r.threads| == |s.threads| && r.current != i && r.threads[i].id == INVALID_THREAD
    decreases |es|
  {
    if es == [] {
    } else {
      RunGoesOn(s, es);
      StepKeepsCore(s, es[0]);
      InvalidStays(s, es[0], i);
      HiddenNeverRuns(Step(s, es[0]), es[1..], i);
    }
  }
}
