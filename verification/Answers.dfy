/**
 What a call answers, and where the answer goes: the result is read off the state in which the call is
 made, and the caller finds it in its first register, whenever it runs on.
 */
module Answers {
  import opened Basics
  import opened Threads
  import opened Scheduler
  import opened Lifecycle
  import opened Rings
  import opened Steps
  import opened CoreInvariant
  import opened Effects
  import opened Choices
  import opened StepParts
  import opened CallSteps
  import opened ErrNo
  import NextThread
  import BlockTags
  import Mailboxes
  import Waiters

  // ---- Results

  function Flag(b: bool): int {
    if b then 1 else 0
  }

  ghost predicate HasFreePage(s: KState) {
    exists p :: 0 <= p < |s.pages| && s.pages[p].refCount == 0
  }

  /** The id a new thread gets, or INVALID_THREAD. */
  ghost function CreatedId(s: KState, call: Call): int
    requires s.WF() && s.current != NULL && call.AddThread?
  {
    if call.flags.None? || s.Current().permissions & TPERM_CREATE == 0 then INVALID_THREAD
    else if call.flags.value.isFile && !HasFreePage(s) then INVALID_THREAD
    else FirstReusable(s.threads, 0)
  }

  /** The result of an operation on condition variable c. */
  ghost function CondVarResult(s: KState, op: CondVarOp, c: nat): int
    requires s.WF() && c < |s.condVars|
  {
    match op
    case CvInit => 1
    case CvSignal => Flag(Waiters.WaitLine(s, c) != [])
    case CvBroadcast => 1
    case CvWait => 1
    case CvUnknown => 0
  }

  ghost function MemoryResult(s: KState, call: Call): int
    requires s.WF() && s.current != NULL && CallIsUsable(s, call) && (call.Malloc? || call.Realloc?)
  {
    var allowed := s.Current().permissions & TPERM_ALLOC != 0;
    if call.Malloc? then BlockTags.Malloc(s.heap, s.layout, allowed, s.Current().id, call.size).1
    else BlockTags.Realloc(s.heap, s.layout, allowed, s.Current().id, call.ptr, call.size).1
  }

  /** The result of a call, if it is of a kind that has one. */
  ghost function ResultOf(s: KState, call: Call): Option<int>
    requires s.WF() && s.current != NULL && CallIsUsable(s, call)
  {
    match call
    case AddThread(_, _, _, _, _) => Some(CreatedId(s, call))
    case GetThreadProperty(_, _, _) => Some(Flag(ReportedError(s, call) == 0))
    case SetThreadProperty(_, _) => Some(Flag(ReportedError(s, call) == 0))
    case SetKernelConfig(_, _) => None
    case Yield(_, _) => Some(Flag(RunsScheduler(s, call) && !CallerRunsOn(s, call)))
    case Restart(_, _, _, _) => None
    case GetMsg(hasPointers) => Some(Flag(hasPointers && Mailboxes.Queue(s.Current().messages) != []))
    case SendMsg(destination, _) =>
      Some(Flag(IsValidThread(s.threads, destination)
                && |Mailboxes.Queue(s.threads[destination].messages)| < QUEUE_SIZE))
    case ThreadWait => None
    case ThreadWake(tid) => Some(Flag(IsValidThread(s.threads, tid)))
    case ThreadCancel(tid) => Some(Flag(IsValidThread(s.threads, CancelledSlot(s, tid))))
    case CondVar(op, cv) => Some(if cv.Some? then CondVarResult(s, op, cv.value) else 0)
    case HostCall(_, result) => Some(result)
    case Malloc(_) => Some(MemoryResult(s, call))
    case Realloc(_, _) => Some(MemoryResult(s, call))
    case Free(_) => None
    case ExitKernel(_) => None
    case UnknownCall => Some(0)
  }

  /** The call's result is the one it should have. */
  ghost predicate GivesResult(s: KState, call: Call)
    requires s.WF() && s.current != NULL && CallIsUsable(s, call)
  {
    && (HasResult(call) <==> ResultOf(s, call).Some?)
    && (HasResult(call) ==> Dispatch(s, call).1 == ResultOf(s, call).value)
  }

  lemma AddGives(s: KState, call: Call)
    requires Core(s) && call.AddThread?
    ensures GivesResult(s, call)
  {
    var p := FindFreeBackingPage(s.pages, 0);
    assert p == INVALID_PAGE <==> forall q | 0 <= q < |s.pages| :: s.pages[q].refCount != 0;
  }

  lemma PropertyGives(s: KState, call: Call)
    requires Core(s) && CallIsUsable(s, call) && (call.GetThreadProperty? || call.SetThreadProperty?)
    ensures GivesResult(s, call)
  {
  }

  lemma YieldGives(s: KState, call: Call)
    requires Core(s) && call.Yield? && CallExit(s, call).None?
    ensures GivesResult(s, call)
  {
    CallDecides(s, call);
    CallerRunsOnIff(s, call);
    if YieldsToAny(call) {
      assert s.(next := NULL) == s;
    }
  }

  lemma MailGives(s: KState, call: Call)
    requires Core(s) && (call.GetMsg? || call.SendMsg?)
    ensures GivesResult(s, call)
  {
    if call.GetMsg? {
      QueueIsEmptyIff(s.Current().messages);
    } else if IsValidThread(s.threads, call.destination) {
      QueueIsFullIff(s.threads[call.destination].messages);
    }
  }

  lemma QueueIsEmptyIff(q: MessageRing)
    ensures Mailboxes.Queue(q) == [] <==> !HasMessage(q)
  {
  }

  lemma QueueIsFullIff(q: MessageRing)
    ensures |Mailboxes.Queue(q)| < QUEUE_SIZE <==> !q.full
  {
  }

  lemma CancelGives(s: KState, call: Call)
    requires Core(s) && call.ThreadCancel?
    ensures GivesResult(s, call)
  {
  }

  lemma CondVarGives(s: KState, call: Call)
    requires Core(s) && CallIsUsable(s, call) && call.CondVar?
    ensures GivesResult(s, call)
  {
  }

  lemma MemoryGives(s: KState, call: Call)
    requires Core(s) && CallIsUsable(s, call) && (call.Malloc? || call.Realloc? || call.Free?)
    ensures GivesResult(s, call)
  {
  }

  lemma OtherGives(s: KState, call: Call)
    requires Core(s) && CallIsUsable(s, call) && CallExit(s, call).None?
    requires call.SetKernelConfig? || call.Restart? || call.ThreadWait? || call.ThreadWake? || call.HostCall?
    ensures GivesResult(s, call)
  {
  }

  lemma CallGives(s: KState, call: Call)
    requires Core(s) && CallIsUsable(s, call) && CallExit(s, call).None?
    ensures GivesResult(s, call)
  {
    if call.AddThread? {
      AddGives(s, call);
    } else if call.GetThreadProperty? || call.SetThreadProperty? {
      PropertyGives(s, call);
    } else if call.Yield? {
      YieldGives(s, call);
    } else if call.GetMsg? || call.SendMsg? {
      MailGives(s, call);
    } else if call.ThreadCancel? {
      CancelGives(s, call);
    } else if call.CondVar? {
      CondVarGives(s, call);
    } else if call.Malloc? || call.Realloc? || call.Free? {
      MemoryGives(s, call);
    } else {
      OtherGives(s, call);
    }
  }

  // ---- The state before the entry

  /** Saving the caller's context changes nothing that a result depends on. */
  ghost predicate SameForResults(s: KState, x: KState) {
    && s.WF() && x.WF() && s.current != NULL && x.current == s.current && |x.threads| == |s.threads|
    && x == s.(threads := x.threads, info := x.info)
    && forall i | 0 <= i < |s.threads| :: x.threads[i] == s.threads[i].(frames := x.threads[i].frames)
  }

  lemma EntrySameForResults(s: KState, f: Frame)
    requires s.WF() && s.current != NULL
    ensures SameForResults(s, CallEntry(s, f))
  {
    EntryIs(s, f);
  }

  lemma SameCreatedId(s: KState, x: KState, call: Call)
    requires SameForResults(s, x) && call.AddThread?
    ensures CreatedId(x, call) == CreatedId(s, call)
  {
    SameReusable(s.threads, x.threads, 0);
    assert HasFreePage(x) <==> HasFreePage(s);
  }

  lemma SameReports(s: KState, x: KState, call: Call)
    requires SameForResults(s, x)
    ensures ReportedError(x, call) == ReportedError(s, call)
  {
    SameRightsReportSame(s, x, call);
  }

  lemma SameCondVarResult(s: KState, x: KState, op: CondVarOp, c: nat)
    requires SameForResults(s, x) && c < |s.condVars|
    ensures CondVarResult(x, op, c) == CondVarResult(s, op, c)
  {
    assert Waiters.WaitLine(x, c) == Waiters.WaitLine(s, c);
  }

  lemma SameResult(s: KState, x: KState, call: Call)
    requires SameForResults(s, x) && CallIsUsable(s, call) && CallIsUsable(x, call)
    requires RunsScheduler(x, call) <==> RunsScheduler(s, call)
    requires CallerRunsOn(x, call) <==> CallerRunsOn(s, call)
    ensures ResultOf(x, call) == ResultOf(s, call)
  {
    if call.AddThread? {
      SameCreatedId(s, x, call);
    } else if call.GetThreadProperty? || call.SetThreadProperty? {
      SameReports(s, x, call);
    } else if call.CondVar? && call.cv.Some? {
      SameCondVarResult(s, x, call.op, call.cv.value);
    } else {
      OtherSameResult(s, x, call);
    }
  }

  lemma OtherSameResult(s: KState, x: KState, call: Call)
    requires SameForResults(s, x) && CallIsUsable(s, call) && CallIsUsable(x, call)
    requires RunsScheduler(x, call) <==> RunsScheduler(s, call)
    requires CallerRunsOn(x, call) <==> CallerRunsOn(s, call)
    requires !call.AddThread? && !call.GetThreadProperty? && !call.SetThreadProperty?
    requires !(call.CondVar? && call.cv.Some?)
    ensures ResultOf(x, call) == ResultOf(s, call)
  {
  }

  // ---- The caller's context

  /** The call writes the registers of its own caller. */
  predicate SetsOwnRegisters(s: KState, call: Call)
    requires s.WF() && s.current != NULL
  {
    && call.SetThreadProperty? && call.value.Some? && call.value.value.PropRegisters?
    && ResolvedTid(s, call.tid) == s.current && ReportedError(s, call) == 0
  }

  /** The caller's context after the call, but for the answer. */
  function ContextAfter(s: KState, f: Frame, call: Call): Frame
    requires s.WF() && s.current != NULL
  {
    if SetsOwnRegisters(s, call) then call.value.value.registers.(sp := f.sp) else f
  }

  /** What the caller finds in its registers when it runs on. */
  ghost function Answered(s: KState, f: Frame, call: Call): Frame
    requires s.WF() && s.current != NULL && CallIsUsable(s, call)
  {
    var g := ContextAfter(s, f, call);
    match ResultOf(s, call)
    case Some(v) => g.(arg0 := v)
    case None => g
  }

  lemma SettingKeepsContext(x: KState, fs: seq<Frame>, f: Frame, call: Call)
    requires Core(x) && CallIsUsable(x, call) && call.SetThreadProperty? && x.Current().frames == fs + [f]
    ensures CallEffect(x, call).threads[x.current].frames == fs + [ContextAfter(x, f, call)]
  {
    SetPropertyEffect(x, call);
    SetPropertyKeeps(x, call.tid, call.value);
    if ReportedError(x, call) == 0 && ResolvedTid(x, call.tid) == x.current {
      assert CallEffect(x, call) == WithProperty(x, x.current, call.value.value).0;
      OwnSettingKeepsContext(x, fs, f, call.value.value);
    }
  }

  lemma OwnSettingKeepsContext(x: KState, fs: seq<Frame>, f: Frame, p: Property)
    requires Core(x) && x.Current().frames == fs + [f]
    ensures var y := WithProperty(x, x.current, p).0;
            && |y.threads| == |x.threads|
            && y.threads[x.current].frames == fs + [if p.PropRegisters? then p.registers.(sp := f.sp) else f]
  {
    if p.PropRegisters? {
      var g := p.registers.(sp := f.sp);
      assert (fs + [f])[|fs| := g] == fs + [g];
    }
  }

  lemma EffectKeepsContext(x: KState, fs: seq<Frame>, f: Frame, call: Call)
    requires Core(x) && CallIsUsable(x, call) && !call.Restart? && x.Current().frames == fs + [f]
    requires |CallEffect(x, call).threads| == |x.threads|
    ensures CallEffect(x, call).threads[x.current].frames == fs + [ContextAfter(x, f, call)]
  {
    if call.SetThreadProperty? {
      SettingKeepsContext(x, fs, f, call);
    } else {
      CallEffectChanges(x, call);
      ChangesKeepContext(x, call, CallEffect(x, call));
    }
  }

  lemma ChangesKeepContext(x: KState, call: Call, r: KState)
    requires Core(x) && CallChanges(x, call, r) && !call.Restart? && !call.SetThreadProperty?
    ensures r.threads[x.current].frames == x.Current().frames
  {
  }

  // ---- The way of the answer

  /** The end of a syscall writes the result, if there is one, into the context saved on entry. */
  lemma FinishWrites(d: KState, before: KState, call: Call, result: int, fs: seq<Frame>, g: Frame)
    requires d.WF() && d.current != NULL && before.WF() && before.current != NULL
    requires |before.Current().frames| == |fs| + 1 && |d.Current().frames| > |fs|
    requires d.Current().frames[..|fs| + 1] == fs + [g]
    ensures var z := FinishSyscall(d, before, call, result);
            var answer := if HasResult(call) then g.(arg0 := result) else g;
            && |z.threads| == |d.threads|
            && z.threads[d.current].frames == fs + [answer] + d.Current().frames[|fs| + 1..]
  {
    FinishIsAnswered(d, before, call, result);
    var frames := d.Current().frames;
    assert frames[|fs|] == (fs + [g])[|fs|];
    assert frames == fs + [g] + frames[|fs| + 1..];
  }

  /** What the scheduler puts on top of the caller's stack: a handler's context if the caller is chosen
      again and has a signal to handle, else nothing. */
  ghost predicate IsInterruption(t: Thread, above: seq<Frame>) {
    if t.pendingSignals == {} || t.signalHandler == 0 then above == [] else |above| == 1
  }

  lemma SwitchInterrupts(y: KState, next: int, fs: seq<Frame>, g: Frame)
    requires y.WF() && y.current != NULL && 0 <= next < |y.threads| && y.Current().frames == fs + [g]
    requires g.pc != HANDLER_END
    ensures var d := SwitchTo(y, next); var frames := d.threads[y.current].frames;
            && |d.threads| == |y.threads| && |frames| > |fs| && frames[..|fs| + 1] == fs + [g]
            && (if next == y.current then IsInterruption(y.Current(), frames[|fs| + 1..]) else frames == fs + [g])
  {
    var t := y.Current();
    assert SwitchTo(y, next).threads[y.current] == SwitchedThread(t, true, next == y.current, y.info.errNo);
    assert WithoutDoneHandler(fs + [g]) == fs + [g];
  }

  // ---- The whole step

  /** In r thread i runs on from context g with `fs` on its stack, or g lies on top of them there; above it
      there may be a signal handler's context, if it runs. */
  ghost predicate FindsAnswer(r: KState, i: int, fs: seq<Frame>, g: Frame, interrupted: bool) {
    && 0 <= i < |r.threads|
    && if r.current == i && !interrupted then r.cpu == g && r.threads[i].frames == fs
       else r.threads[i].frames == fs + [g]
  }

  lemma ResumedFinds(z: KState, i: int, fs: seq<Frame>, g: Frame, above: seq<Frame>)
    requires z.WF() && 0 <= i < |z.threads| && z.next != NULL && z.threads[i].frames == fs + [g] + above
    requires |above| <= 1 && (z.next != i ==> above == [])
    ensures FindsAnswer(Resumed(z), i, fs, g, above != [])
  {
    if z.next == i {
      assert Popped(fs + [g] + above) == if above == [] then fs else fs + [g];
    }
  }

  lemma StayingFinds(x: KState, before: KState, call: Call, fs: seq<Frame>, f: Frame, result: int)
    requires Core(x) && CallIsUsable(x, call) && !call.Restart? && x.Current().frames == fs + [f]
    requires before.WF() && before.current != NULL && |before.Current().frames| == |fs| + 1
    requires CallEffect(x, call).current == x.current && CallEffect(x, call).next == NULL
    requires |CallEffect(x, call).threads| == |x.threads|
    ensures var g := ContextAfter(x, f, call); var answer := if HasResult(call) then g.(arg0 := result) else g;
            var r := Resumed(FinishSyscall(CallEffect(x, call), before, call, result));
            FindsAnswer(r, x.current, fs, answer, false)
  {
    var y, g := CallEffect(x, call), ContextAfter(x, f, call);
    EffectKeepsContext(x, fs, f, call);
    FinishWrites(y, before, call, result, fs, g);
    ResumedFinds(FinishSyscall(y, before, call, result), x.current, fs,
                 if HasResult(call) then g.(arg0 := result) else g, []);
  }

  lemma SwitchedFinds(y: KState, next: int, before: KState, call: Call, fs: seq<Frame>, g: Frame, result: int)
    requires y.WF() && y.current != NULL && 0 <= next < |y.threads| && y.Current().frames == fs + [g]
    requires before.WF() && before.current != NULL && |before.Current().frames| == |fs| + 1 && g.pc != HANDLER_END
    ensures var answer := if HasResult(call) then g.(arg0 := result) else g; var t := y.Current();
            var r := Resumed(FinishSyscall(SwitchTo(y, next), before, call, result));
            FindsAnswer(r, y.current, fs, answer, next == y.current && t.pendingSignals != {} && t.signalHandler != 0)
  {
    var d := SwitchTo(y, next);
    SwitchInterrupts(y, next, fs, g);
    FinishWrites(d, before, call, result, fs, g);
    ResumedFinds(FinishSyscall(d, before, call, result), y.current, fs,
                 if HasResult(call) then g.(arg0 := result) else g, d.threads[y.current].frames[|fs| + 1..]);
  }

  /** The caller has a signal to handle before it sees the answer. */
  predicate HandlesSignalFirst(s: KState, call: Call)
    requires s.WF() && s.current != NULL
  {
    RunsScheduler(s, call) && s.Current().pendingSignals != {} && s.Current().signalHandler != 0
  }

  lemma SchedulingKeepsSignals(x: KState, call: Call)
    requires Core(x) && CallIsUsable(x, call) && RunsScheduler(x, call)
    requires |CallEffect(x, call).threads| == |x.threads|
    ensures var u := CallEffect(x, call).threads[x.current];
            u.pendingSignals == x.Current().pendingSignals && u.signalHandler == x.Current().signalHandler
  {
    if call.ThreadCancel? {
      CancelChangesSlot(x, call.tid);
    } else {
      PlainCallKeeps(x, call);
    }
  }

  lemma SchedulingSwitches(x: KState, before: KState, call: Call)
    requires Core(x) && CallIsUsable(x, call) && CallExit(x, call).None? && RunsScheduler(x, call)
    requires before.WF() && before.current != NULL
    ensures var d, y := Dispatch(x, call).0, CallEffect(x, call);
            && y.current == x.current && |y.threads| == |x.threads|
            && 0 <= d.next < |y.threads| && d == SwitchTo(y, d.next) && d.exit.None?
            && Handled(x, before, call) == FinishSyscall(d, before, call, Dispatch(x, call).1)
  {
    CallDecides(x, call);
    EffectStaysCurrent(x, call);
    DispatchSwitches(x, call);
  }

  lemma SchedulingKeepsContext(x: KState, fs: seq<Frame>, f: Frame, call: Call)
    requires Core(x) && CallIsUsable(x, call) && RunsScheduler(x, call) && x.Current().frames == fs + [f]
    requires |CallEffect(x, call).threads| == |x.threads|
    ensures CallEffect(x, call).threads[x.current].frames == fs + [f]
  {
    EffectKeepsContext(x, fs, f, call);
  }

  lemma SchedulingFinds(x: KState, before: KState, call: Call, fs: seq<Frame>, f: Frame)
    requires Core(x) && CallIsUsable(x, call) && CallExit(x, call).None? && RunsScheduler(x, call)
    requires x.Current().frames == fs + [f] && before.WF() && before.current != NULL && f.pc != HANDLER_END
    requires |before.Current().frames| == |fs| + 1
    ensures var z := Handled(x, before, call);
            var answer := if HasResult(call) then f.(arg0 := Dispatch(x, call).1) else f;
            && z.exit.None? && z.next != NULL
            && FindsAnswer(Resumed(z), x.current, fs, answer, HandlesSignalFirst(x, call))
  {
    SchedulingSwitches(x, before, call);
    SchedulingKeepsContext(x, fs, f, call);
    SchedulingKeepsSignals(x, call);
    var d := Dispatch(x, call);
    EndFinds(CallEffect(x, call), d.0.next, before, call, fs, f, d.1, HandlesSignalFirst(x, call));
  }

  lemma EndFinds(y: KState, next: int, before: KState, call: Call, fs: seq<Frame>, g: Frame, result: int, handles: bool)
    requires y.WF() && y.current != NULL && 0 <= next < |y.threads| && y.Current().frames == fs + [g]
    requires before.WF() && before.current != NULL && |before.Current().frames| == |fs| + 1 && g.pc != HANDLER_END
    requires handles <==> y.Current().pendingSignals != {} && y.Current().signalHandler != 0
    ensures var z := FinishSyscall(SwitchTo(y, next), before, call, result);
            && z.exit == y.exit && z.next == next
            && FindsAnswer(Resumed(z), y.current, fs, if HasResult(call) then g.(arg0 := result) else g, handles)
  {
    SwitchedFinds(y, next, before, call, fs, g, result);
  }

  lemma StayingIsHandled(x: KState, before: KState, call: Call)
    requires Core(x) && CallIsUsable(x, call) && CallExit(x, call).None? && !RunsScheduler(x, call)
    requires before.WF() && before.current != NULL
    ensures var y := CallEffect(x, call);
            && y.current == x.current && y.next == NULL && |y.threads| == |x.threads|
            && Handled(x, before, call) == FinishSyscall(y, before, call, Dispatch(x, call).1)
            && Handled(x, before, call).exit.None?
  {
    CallDecides(x, call);
    StayingDispatch(x, call);
    CallKeepsThreadCount(x, call);
  }

  lemma HandledFinds(x: KState, before: KState, call: Call, fs: seq<Frame>, f: Frame)
    requires Core(x) && CallIsUsable(x, call) && CallExit(x, call).None? && !call.Restart? && f.pc != HANDLER_END
    requires x.Current().frames == fs + [f] && before.WF() && before.current != NULL
    requires |before.Current().frames| == |fs| + 1
    ensures var z := Handled(x, before, call);
            && z.exit.None? && z.next != NULL
            && FindsAnswer(Resumed(z), x.current, fs, Answered(x, f, call), HandlesSignalFirst(x, call))
  {
    CallGives(x, call);
    AnsweredIs(x, f, call);
    if RunsScheduler(x, call) {
      SchedulingFinds(x, before, call, fs, f);
    } else {
      StayingIsHandled(x, before, call);
      StayingFinds(x, before, call, fs, f, Dispatch(x, call).1);
    }
  }

  lemma AnsweredIs(x: KState, f: Frame, call: Call)
    requires x.WF() && x.current != NULL && CallIsUsable(x, call) && GivesResult(x, call)
    ensures var g := ContextAfter(x, f, call);
            Answered(x, f, call) == if HasResult(call) then g.(arg0 := Dispatch(x, call).1) else g
    ensures RunsScheduler(x, call) ==> ContextAfter(x, f, call) == f
  {
  }

  lemma SameContext(s: KState, x: KState, f: Frame, call: Call)
    requires SameForResults(s, x)
    ensures ContextAfter(x, f, call) == ContextAfter(s, f, call)
  {
    SameReports(s, x, call);
  }

  /** Every caller gets its answer: it runs on with its own context, in which the first register holds the
      result if the call has one; if it has given way, or has a signal to handle first, that context lies on
      top of its stack. */
  lemma CallerIsAnswered(s: KState, f: Frame, call: Call)
    requires IsHandled(s, f, call) && !call.Restart?
    ensures FindsAnswer(Step(s, Syscall(f, call, true)), s.current, s.Current().frames, Answered(s, f, call),
                        HandlesSignalFirst(s, call))
  {
    var x := CallEntry(s, f);
    CallStepIs(s, f, call);
    CallStepExits(s, f, call);
    EntryAnswersSame(s, f, call);
    HandledFinds(x, Saved(s, f), call, s.Current().frames, f);
    ReturnIs(Handled(x, Saved(s, f), call));
  }

  lemma EntryAnswersSame(s: KState, f: Frame, call: Call)
    requires Core(s) && CallIsUsable(s, call) && Core(CallEntry(s, f)) && CallIsUsable(CallEntry(s, f), call)
    ensures var x := CallEntry(s, f);
            && CallExit(x, call) == CallExit(s, call) && Answered(x, f, call) == Answered(s, f, call)
            && (HandlesSignalFirst(x, call) <==> HandlesSignalFirst(s, call))
            && x.Current().frames == s.Current().frames + [f]
  {
    var x := CallEntry(s, f);
    CallEntryTouches(s, f);
    EntryDecidesSame(s, x, call);
    EntrySameForResults(s, f);
    SameResult(s, x, call);
    SameContext(s, x, f, call);
  }

  // ---- Instances

  /** A caller that runs on without a schedule finds the answer in its registers. */
  lemma AnswerIs(s: KState, f: Frame, call: Call)
    requires IsHandled(s, f, call) && !call.Restart? && !RunsScheduler(s, call)
    ensures var r := Step(s, Syscall(f, call, true));
            CallIsUsable(s, call) && r.current == s.current && r.cpu == Answered(s, f, call)
  {
    AnswerArrives(s, f, call);
  }

  /** The same, with all that is known of the state then. */
  lemma AnswerArrives(s: KState, f: Frame, call: Call)
    requires IsHandled(s, f, call) && !call.Restart? && !RunsScheduler(s, call)
    ensures var r := Step(s, Syscall(f, call, true)); var x := CallEntry(s, f);
            && CallIsUsable(s, call) && r.current == s.current && r.cpu == Answered(s, f, call)
            && |r.threads| == |s.threads| && r.threads[s.current].frames == s.Current().frames
            && Core(x) && CallIsUsable(x, call)
            && CallEffect(x, call).current == s.current && ReturnsFrom(CallEffect(x, call), r)
  {
    CallerIsAnswered(s, f, call);
    StayingStep(s, f, call);
    CallKeepsThreadCount(CallEntry(s, f), call);
  }

  lemma MemoryEffect(x: KState, call: Call)
    requires Core(x) && CallIsUsable(x, call) && (call.Malloc? || call.Realloc? || call.Free?)
    ensures CallEffect(x, call) == x.(heap := MemoryCall(x, call).0)
  {
  }

  /** A memory call changes the heap, and nothing else that outlasts it. */
  lemma MemoryStep(s: KState, f: Frame, call: Call)
    requires IsHandled(s, f, call) && (call.Malloc? || call.Realloc? || call.Free?)
    ensures var r := Step(s, Syscall(f, call, true)); var x := CallEntry(s, f);
            && r.current == s.current && r.cpu == Answered(s, f, call)
            && CallIsUsable(x, call) && r.heap == MemoryCall(x, call).0 && r.layout == s.layout
            && x.heap == s.heap && x.layout == s.layout && ThreadId(x) == s.current
            && x.Current().permissions == s.Current().permissions
  {
    QuietStays(s, call);
    AnswerArrives(s, f, call);
    MemoryEffect(CallEntry(s, f), call);
    EntryIs(s, f);
  }

  predicate MayAllocate(s: KState)
    requires s.WF() && s.current != NULL
  {
    s.Current().permissions & TPERM_ALLOC != 0
  }

  /** malloc answers with the caller's new run, or with 0. */
  lemma MallocAnswers(s: KState, f: Frame, size: nat)
    requires IsHandled(s, f, Malloc(size)) && BlockTags.WellFormed(s.heap) && s.layout.base > 0
    ensures var r := Step(s, Syscall(f, Malloc(size), true)); var n := BlockTags.ToBlocks(s.layout, size);
            && r.current == s.current && r.cpu.arg0 >= 0 && r.cpu == f.(arg0 := r.cpu.arg0)
            && if r.cpu.arg0 != 0 then BlockTags.IsNewRun(s.heap, r.heap, s.layout, s.current, n, r.cpu.arg0)
               else r.heap == s.heap && (!MayAllocate(s) || n == 0 || forall st :: !BlockTags.IsFreeRun(s.heap, st, n))
  {
    MemoryStep(s, f, Malloc(size));
    BlockTags.MallocMeans(s.heap, s.layout, MayAllocate(s), s.current, size);
  }

  /** realloc answers with the place of the caller's run, the pointer itself if it is not the caller's, or 0
      if the run stays where it is. */
  lemma ReallocAnswers(s: KState, f: Frame, ptr: nat, size: nat)
    requires IsHandled(s, f, Realloc(ptr, size)) && BlockTags.WellFormed(s.heap) && 0 < s.layout.base <= ptr
    ensures var r := Step(s, Syscall(f, Realloc(ptr, size), true)); var n := BlockTags.ToBlocks(s.layout, size);
            && r.current == s.current && r.cpu.arg0 >= 0 && r.cpu == f.(arg0 := r.cpu.arg0)
            && BlockTags.IsReallocated(s.heap, r.heap, s.layout, MayAllocate(s), s.current, ptr, n, r.cpu.arg0)
  {
    MemoryStep(s, f, Realloc(ptr, size));
    BlockTags.ReallocMeans(s.heap, s.layout, MayAllocate(s), s.current, ptr, size);
  }

  /** free has no answer; it gives back the caller's run, and only that. */
  lemma FreeAnswers(s: KState, f: Frame, ptr: nat)
    requires IsHandled(s, f, Free(ptr)) && BlockTags.WellFormed(s.heap) && s.layout.base > 0
    ensures var r := Step(s, Syscall(f, Free(ptr), true));
            && r.current == s.current && r.cpu == f
            && BlockTags.IsFreed(s.heap, r.heap, s.layout, MayAllocate(s), s.current, ptr)
  {
    MemoryStep(s, f, Free(ptr));
    BlockTags.FreeMeans(s.heap, s.layout, MayAllocate(s), s.current, ptr);
  }

  /** A yield answers 1 exactly if another thread is run. */
  lemma YieldAnswers(s: KState, f: Frame, tid: int, kind: int)
    requires IsHandled(s, f, Yield(tid, kind))
    ensures var r := Step(s, Syscall(f, Yield(tid, kind), true));
            FindsAnswer(r, s.current, s.Current().frames, f.(arg0 := Flag(r.current != s.current)),
                        HandlesSignalFirst(s, Yield(tid, kind)))
  {
    var call := Yield(tid, kind);
    CallerIsAnswered(s, f, call);
    CallStepExits(s, f, call);
    NextThread.CallNext(s, f, call);
    NextIsAnother(s, f, call);
  }

  lemma NextIsAnother(s: KState, f: Frame, call: Call)
    requires Core(s) && Allowed(s, Syscall(f, call, true)) && call.Yield? && CallExit(s, call).None?
    requires Affected(s, Syscall(f, call, true)).current != NULL
    ensures NextThread.NextOf(s, Syscall(f, call, true)) != s.current
            <==> RunsScheduler(s, call) && !CallerRunsOn(s, call)
  {
    AffectedByYield(s, f, call);
    YieldChoosesSame(s, f, call);
    NextByYield(s, f, call, CallEntry(s, f));
  }

  lemma NextByYield(s: KState, f: Frame, call: Call, x: KState)
    requires Core(s) && Allowed(s, Syscall(f, call, true)) && call.Yield?
    requires x == Affected(s, Syscall(f, call, true)) && x.current == s.current
    ensures NextThread.NextOf(s, Syscall(f, call, true))
            == if YieldsTo(s, call) then call.tid
               else if YieldsToAny(call) then ChooseNextThread(x.threads, x.current) else s.current
  {
  }

  lemma AffectedByYield(s: KState, f: Frame, call: Call)
    requires Core(s) && Allowed(s, Syscall(f, call, true)) && call.Yield?
    ensures Affected(s, Syscall(f, call, true)) == CallEntry(s, f)
  {
  }

  lemma YieldChoosesSame(s: KState, f: Frame, call: Call)
    requires Core(s) && call.Yield?
    ensures var x := CallEntry(s, f);
            x.current == s.current && ChooseNextThread(x.threads, x.current) == ChooseNextThread(s.threads, s.current)
  {
    CallEntryTouches(s, f);
    NextThread.EntryParksSame(s, f, call);
    SameChoice(s.threads, CallEntry(s, f).threads, s.current);
  }

  /** send_msg answers 1 and the message joins the receiver's queue, or it answers 0 and nothing joins. */
  lemma SendAnswers(s: KState, f: Frame, to: int, content: int)
    requires IsHandled(s, f, SendMsg(to, content)) && Mailboxes.RingsMet(s.threads) && 0 <= to < |s.threads|
    ensures var r := Step(s, Syscall(f, SendMsg(to, content), true)); var q := Mailboxes.Queue(s.threads[to].messages);
            var sent := IsValidThread(s.threads, to) && |q| < QUEUE_SIZE;
            && r.current == s.current && r.cpu == f.(arg0 := Flag(sent)) && |r.threads| == |s.threads|
            && Mailboxes.Queue(r.threads[to].messages) == if sent then q + [Message(s.current, content)] else q
  {
    QuietStays(s, SendMsg(to, content));
    AnswerArrives(s, f, SendMsg(to, content));
    SendIsQueued(s, Syscall(f, SendMsg(to, content), true), to);
  }

  /** The message has joined the receiver's queue, if there was room. */
  ghost predicate IsQueued(s: KState, r: KState, to: int, content: int) {
    && 0 <= to < |s.threads| == |r.threads|
    && var q := Mailboxes.Queue(s.threads[to].messages);
       Mailboxes.Queue(r.threads[to].messages)
       == if IsValidThread(s.threads, to) && |q| < QUEUE_SIZE then q + [Message(s.current, content)] else q
  }

  lemma SendIsQueued(s: KState, e: Event, to: int)
    requires Core(s) && Allowed(s, e) && Step(s, e).exit.None? && Mailboxes.RingsMet(s.threads)
    requires IsCall(e) && e.call.SendMsg? && e.call.destination == to && 0 <= to < |s.threads|
    ensures IsQueued(s, Step(s, e), to, e.call.content)
  {
    Mailboxes.StepMovesQueues(s, e, to);
    SendMoves(s, e, to, Step(s, e));
  }

  lemma SendMoves(s: KState, e: Event, to: int, r: KState)
    requires Core(s) && IsCall(e) && e.call.SendMsg? && e.call.destination == to && 0 <= to < |s.threads|
    requires Mailboxes.QueueMoves(s, e, to, r)
    ensures IsQueued(s, r, to, e.call.content)
  {
    QueueIsFullIff(s.threads[to].messages);
    assert Mailboxes.ReceivedBy(s, e, to) == [];
    var rest := Mailboxes.Queue(r.threads[to].messages);
    assert [] + rest == rest;
  }

  /** get_msg answers 1 and hands over the message that has waited longest, or it answers 0. */
  lemma GetAnswers(s: KState, f: Frame)
    requires IsHandled(s, f, GetMsg(true)) && Mailboxes.RingsMet(s.threads)
    ensures var r := Step(s, Syscall(f, GetMsg(true), true)); var q := Mailboxes.Queue(s.Current().messages);
            && r.current == s.current && r.cpu == f.(arg0 := Flag(q != [])) && |r.threads| == |s.threads|
            && Received(s) == (if q == [] then None else Some(q[0]))
            && Mailboxes.Queue(r.threads[s.current].messages) == if q == [] then [] else q[1..]
  {
    QuietStays(s, GetMsg(true));
    var e := Syscall(f, GetMsg(true), true);
    AnswerArrives(s, f, e.call);
    Mailboxes.StepMovesQueues(s, e, s.current);
    QueueIsEmptyIff(s.Current().messages);
    var q, rest := Mailboxes.Queue(s.Current().messages), Mailboxes.Queue(Step(s, e).threads[s.current].messages);
    if q != [] {
      assert q == [Received(s).value] + rest;
    }
  }
}
