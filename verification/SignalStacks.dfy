/** The contexts saved on a thread's stack: interrupted code below, signal handlers above. */
module SignalStacks {
  import opened Basics
  import opened Threads
  import opened Scheduler
  import opened Lifecycle
  import opened Rings
  import opened Steps
  import opened CoreInvariant
  import opened Effects
  import opened StepParts

  // ---- Well-formed stacks

  /** Contexts lie one below the other, inside the stack's upper end, without overlap. */
  ghost predicate IsStacked(frames: seq<Frame>, stackEnd: int) {
    && (frames != [] ==> frames[0].sp + CONTEXT_SIZE <= stackEnd)
    && forall k | 0 < k < |frames| :: frames[k].sp + CONTEXT_SIZE <= frames[k - 1].sp
  }

  ghost predicate NoHandlerEnds(frames: seq<Frame>) {
    forall k | 0 <= k < |frames| :: frames[k].pc != HANDLER_END
  }

  /** A stack with the thread's whole context saved: only the top one may be a finished handler's,
      and that lies right below the context the handler interrupted. */
  ghost predicate IsSavedStack(frames: seq<Frame>, stackEnd: int) {
    && frames != [] && IsStacked(frames, stackEnd)
    && NoHandlerEnds(frames[..|frames| - 1])
    && var top := |frames| - 1;
       frames[top].pc == HANDLER_END ==> top > 0 && frames[top].sp + CONTEXT_SIZE == frames[top - 1].sp
  }

  /** The stack below running code. */
  ghost predicate IsRunningStack(frames: seq<Frame>, stackEnd: int) {
    IsStacked(frames, stackEnd) && NoHandlerEnds(frames)
  }

  /** Holds whenever user code runs. */
  ghost predicate StacksAreSound(s: KState) {
    forall i | 0 <= i < |s.threads| ::
      if i == s.current then IsRunningStack(s.threads[i].frames, s.threads[i].stackEnd)
      else IsSavedStack(s.threads[i].frames, s.threads[i].stackEnd)
  }

  /** Holds inside the kernel: every context is saved, and the thread to be resumed is not at the
      end of a handler. */
  ghost predicate StacksAreSaved(s: KState) {
    forall i | 0 <= i < |s.threads| :: IsSavedStack(s.threads[i].frames, s.threads[i].stackEnd)
  }

  ghost predicate ReadyToResume(s: KState)
    requires s.WF()
  {
    StacksAreSaved(s) && 0 <= Chosen(s) && NoHandlerEnds(s.threads[Chosen(s)].frames)
  }

  // ---- Pieces

  lemma PushUserFrame(frames: seq<Frame>, stackEnd: int, f: Frame)
    requires IsRunningStack(frames, stackEnd)
    requires f.sp + CONTEXT_SIZE <= if frames == [] then stackEnd else frames[|frames| - 1].sp
    requires f.pc == HANDLER_END ==> frames != [] && f.sp + CONTEXT_SIZE == frames[|frames| - 1].sp
    ensures IsSavedStack(frames + [f], stackEnd)
    ensures f.pc != HANDLER_END ==> NoHandlerEnds(frames + [f])
  {
    assert (frames + [f])[..|frames|] == frames;
  }

  lemma PopFrame(frames: seq<Frame>, stackEnd: int)
    requires IsSavedStack(frames, stackEnd)
    ensures IsRunningStack(Popped(frames), stackEnd)
  {
  }

  lemma WithoutDoneHandlerIsSound(frames: seq<Frame>, stackEnd: int)
    requires IsSavedStack(frames, stackEnd)
    ensures IsSavedStack(WithoutDoneHandler(frames), stackEnd) && NoHandlerEnds(WithoutDoneHandler(frames))
  {
    var u, top := WithoutDoneHandler(frames), |frames| - 1;
    if HandlerDone(frames) {
      PopFrame(frames, stackEnd);
      assert forall k | 0 <= k < top - 1 :: u[..top - 1][k] == frames[..top][k];
    } else {
      assert forall k | 0 <= k < top :: frames[k] == frames[..top][k];
    }
  }

  /** Checking signals removes a finished handler's context and may add a new handler's; either way
      the thread is left with a sound stack whose top can be resumed. */
  lemma CheckSignalsKeepsSaved(t: Thread)
    requires IsSavedStack(t.frames, t.stackEnd)
    ensures var r := CheckSignals(t); IsSavedStack(r.frames, r.stackEnd) && NoHandlerEnds(r.frames)
  {
    var u := WithoutDoneHandler(t.frames);
    WithoutDoneHandlerIsSound(t.frames, t.stackEnd);
    PushUserFrame(u, t.stackEnd, HandlerFrame(u, t.stackEnd, NextSignal(t.pendingSignals, 0), t.signalHandler));
  }

  lemma NewStackIsSaved(t: Thread, f: Frame)
    requires f.sp + CONTEXT_SIZE <= t.stackEnd && f.pc != HANDLER_END
    ensures IsSavedStack([f], t.stackEnd) && NoHandlerEnds([f])
  {
  }

  lemma RegistersKeepSaved(frames: seq<Frame>, stackEnd: int, f: Frame)
    requires IsSavedStack(frames, stackEnd) && f.pc != HANDLER_END
    ensures IsSavedStack(WithRegisters(frames, f), stackEnd)
    ensures NoHandlerEnds(WithRegisters(frames, f))
  {
    var r := WithRegisters(frames, f);
    assert r[..|r| - 1] == frames[..|frames| - 1];
    assert forall k | 0 <= k < |r| - 1 :: r[k] == frames[..|frames| - 1][k];
  }

  // ---- Scheduling

  lemma SwitchedFrames(s: KState, next: int)
    requires s.WF() && 0 <= next < |s.threads|
    ensures var r := SwitchTo(s, next);
            && |r.threads| == |s.threads|
            && forall i | 0 <= i < |s.threads| ::
                 && r.threads[i].stackEnd == s.threads[i].stackEnd
                 && r.threads[i].frames
                    == if i == next then CheckSignals(s.threads[next]).frames else s.threads[i].frames
  {
  }

  lemma SwitchKeepsSaved(s: KState, next: int)
    requires s.WF() && StacksAreSaved(s) && 0 <= next < |s.threads|
    ensures StacksAreSaved(SwitchTo(s, next)) && NoHandlerEnds(SwitchTo(s, next).threads[next].frames)
  {
    CheckSignalsKeepsSaved(s.threads[next]);
    SwitchedFrames(s, next);
  }

  lemma ResumeKeepsSound(s: KState)
    requires s.WF() && ReadyToResume(s) && s.next != NULL
    ensures StacksAreSound(Resumed(s))
  {
    PopFrame(s.threads[s.next].frames, s.threads[s.next].stackEnd);
  }

  // ---- Calls

  /** The stacks are those of s. */
  ghost predicate SameStacks(s: KState, r: KState) {
    |r.threads| == |s.threads|
    && forall i | 0 <= i < |s.threads| ::
         r.threads[i].frames == s.threads[i].frames && r.threads[i].stackEnd == s.threads[i].stackEnd
  }

  /** The event does not set a saved pc to the end of the handler wrapper by hand. */
  predicate SetsNoHandlerEnd(e: Event) {
    e.Syscall? && e.call.SetThreadProperty? && e.call.value.Some? && e.call.value.value.PropRegisters? ==>
      e.call.value.value.registers.pc != HANDLER_END
  }

  lemma EffectKeepsReady(s: KState, call: Call)
    requires Core(s) && ReadyToResume(s) && CallIsUsable(s, call) && SetsNoHandlerEnd(Syscall(s.cpu, call, true))
    ensures var r := CallEffect(s, call); r.next == NULL ==> ReadyToResume(r)
  {
    match call {
      case AddThread(_, _, _, _, _) => AddKeepsReady(s, call);
      case SetThreadProperty(_, _) => SetPropertyKeepsReady(s, call);
      case Restart(_, _, _, _) => RestartKeepsReady(s, call);
      case ThreadCancel(tid) => CancelKeepsReady(s, tid);
      case _ => PlainCallKeepsReady(s, call);
    }
  }

  lemma CancelKeepsReady(s: KState, tid: int)
    requires Core(s) && ReadyToResume(s)
    ensures ReadyToResume(CallEffect(s, ThreadCancel(tid)))
  {
    CancelChangesSlot(s, tid);
  }

  lemma PlainCallKeepsReady(s: KState, call: Call)
    requires Core(s) && ReadyToResume(s) && CallIsUsable(s, call) && IsPlain(call)
    ensures var r := CallEffect(s, call); r.next == NULL ==> ReadyToResume(r)
  {
    PlainCallKeeps(s, call);
  }

  lemma AddKeepsReady(s: KState, call: Call)
    requires Core(s) && ReadyToResume(s) && call.AddThread?
    ensures ReadyToResume(CallEffect(s, call))
  {
    AddCallOnlyAdds(s, call);
    if FirstReusable(s.threads, 0) != NULL {
      AddKeepsNewStack(s, call);
    }
  }

  lemma AddKeepsNewStack(s: KState, call: Call)
    requires Core(s) && StacksAreSaved(s) && call.AddThread? && FirstReusable(s.threads, 0) != NULL
    ensures var r := CallEffect(s, call); var i := FirstReusable(s.threads, 0);
            |r.threads| == |s.threads| && IsSavedStack(r.threads[i].frames, r.threads[i].stackEnd)
  {
    AddCallOnlyAdds(s, call);
    AddStackIsBelowEnd(s, call, FirstReusable(s.threads, 0));
  }

  lemma AddStackIsBelowEnd(s: KState, call: Call, i: int)
    requires Core(s) && call.AddThread? && i == FirstReusable(s.threads, 0) != NULL
    ensures var t := CallEffect(s, call).threads[i];
            && |CallEffect(s, call).threads| == |s.threads|
            && (t == s.threads[i]
                || (|t.frames| == 1 && t.frames[0].pc == THREAD_START && t.stackEnd == s.threads[i].stackEnd
                    && t.frames[0].sp + CONTEXT_SIZE <= t.stackEnd))
  {
    AlignDownIs(s.threads[i].stackEnd);
    AlignDownIs(AlignDown(s.threads[i].stackEnd) - CONTEXT_SIZE - (|call.filename| + 1) - ARGS_SIZE);
    if call.flags.Some? && !HasNoPermission(s, TPERM_CREATE) {
      if call.flags.value.isFile {
        FileStackIsBelowEnd(s, call.filename, call.flags.value.removePermissions, i);
      }
    }
  }

  lemma FileStackIsBelowEnd(s: KState, filename: string, remove: bv16, i: int)
    requires Core(s) && i == FirstReusable(s.threads, 0) != NULL
    ensures var t := AddThreadFromFile(s, filename, remove).0.threads[i];
            && |AddThreadFromFile(s, filename, remove).0.threads| == |s.threads|
            && (t == s.threads[i]
                || (|t.frames| == 1 && t.frames[0].pc == THREAD_START && t.stackEnd == s.threads[i].stackEnd
                    && t.frames[0].sp + CONTEXT_SIZE <= t.stackEnd))
  {
    AlignDownIs(s.threads[i].stackEnd);
    AlignDownIs(AlignDown(s.threads[i].stackEnd) - CONTEXT_SIZE - (|filename| + 1) - ARGS_SIZE);
    var p := FindFreeBackingPage(s.pages, 0);
    AddNamedOnlyAdds(s, LOAD_ELF, Some("loader"), ThreadArgs(p, remove as int, 0, 0), 0);
  }

  lemma SetPropertyKeepsReady(s: KState, call: Call)
    requires Core(s) && ReadyToResume(s) && call.SetThreadProperty? && CallIsUsable(s, call)
    requires SetsNoHandlerEnd(Syscall(s.cpu, call, true))
    ensures ReadyToResume(CallEffect(s, call))
  {
    SetPropertyKeeps(s, call.tid, call.value);
    var i := ResolvedTid(s, call.tid);
    if call.value.Some? && IsValidThread(s.threads, i) {
      if call.value.value.PropRegisters? {
        RegistersKeepSaved(s.threads[i].frames, s.threads[i].stackEnd, call.value.value.registers);
      }
      SetPropertyFrames(s, call.tid, call.value);
    }
  }

  lemma SetPropertyFrames(s: KState, tid: int, value: Option<Property>)
    requires Core(s)
    ensures var r := SetPropertyCall(s, tid, value).0;
            && |r.threads| == |s.threads|
            && forall i | 0 <= i < |s.threads| ::
                 || r.threads[i].frames == s.threads[i].frames
                 || (value.Some? && value.value.PropRegisters? && i == ResolvedTid(s, tid)
                     && r.threads[i].frames == WithRegisters(s.threads[i].frames, value.value.registers))
  {
    if value.Some? && IsValidThread(s.threads, ResolvedTid(s, tid)) {
      WithPropertyFrames(s, ResolvedTid(s, tid), value.value);
    }
  }

  lemma WithPropertyFrames(s: KState, i: int, p: Property)
    requires s.WF() && IsValidThread(s.threads, i)
    ensures var r := WithProperty(s, i, p).0;
            && |r.threads| == |s.threads|
            && forall k | 0 <= k < |s.threads| ::
                 r.threads[k].frames
                 == if k == i && p.PropRegisters? then WithRegisters(s.threads[k].frames, p.registers)
                    else s.threads[k].frames
  {
    var r := WithProperty(s, i, p).0;
    match p {
      case PropChild(child) =>
        if IsValidThread(s.threads, child) {
          assert r.threads == s.threads[i := s.threads[i].(child := child)][child := r.threads[child]];
        } else {
          assert r == s;
        }
      case PropName(_) => assert r.threads == s.threads[i := r.threads[i]];
      case PropPermissions(_) => assert r.threads == s.threads[i := r.threads[i]];
      case PropRegisters(_) => assert r.threads == s.threads[i := r.threads[i]];
      case PropPendingSignals(_) => assert r.threads == s.threads[i := r.threads[i]];
      case PropSignalHandler(_) => assert r.threads == s.threads[i := r.threads[i]];
      case _ => assert r.threads == s.threads;
    }
  }

  lemma RestartKeepsReady(s: KState, call: Call)
    requires Core(s) && ReadyToResume(s) && call.Restart? && CallIsUsable(s, call)
    ensures ReadyToResume(CallEffect(s, call))
  {
    RestartChangesCurrent(s, call);
    AlignDownIs(s.Current().stackEnd);
    var r := CallEffect(s, call);
    assert r.Current().frames == [Frame(AlignDown(s.Current().stackEnd) - CONTEXT_SIZE, THREAD_START, 0, 0, 0)];
    NewStackIsSaved(s.Current(), r.Current().frames[0]);
  }

  // ---- Entries

  lemma EntrySaves(s: KState, f: Frame)
    requires Core(s) && StacksAreSound(s) && (IsUserFrame(s, f) || IsHandlerEnd(s, f))
    ensures StacksAreSaved(Saved(s, f)) && (IsUserFrame(s, f) ==> ReadyToResume(Saved(s, f)))
  {
    PushUserFrame(s.Current().frames, s.Current().stackEnd, f);
  }

  lemma EndedSameStacks(s: KState, f: Frame)
    requires s.WF() && s.current != NULL
    ensures SameStacks(Saved(s, f), Ended(s, f)) && Ended(s, f).next == s.next
  {
    EndedIs(s, f);
  }

  lemma SameStacksStaySaved(s: KState, r: KState)
    requires StacksAreSaved(s) && SameStacks(s, r)
    ensures StacksAreSaved(r)
  {
  }

  lemma CallAffectedReadies(s: KState, f: Frame, call: Call)
    requires Core(s) && StacksAreSound(s) && SetsNoHandlerEnd(Syscall(f, call, true))
    requires Allowed(s, Syscall(f, call, true)) && Step(s, Syscall(f, call, true)).exit.None?
    ensures var x := Affected(s, Syscall(f, call, true)); x.next == NULL && x.current == s.current && ReadyToResume(x)
  {
    EntrySaves(s, f);
    CallStepIs(s, f, call);
    SameStacksStaySaved(Saved(s, f), CallEntry(s, f));
    EffectKeepsReady(CallEntry(s, f), call);
    EffectStaysCurrent(CallEntry(s, f), call);
  }

  lemma OtherAffectedSameStacks(s: KState, e: Event)
    requires Allowed(s, e) && IsEntry(e) && !IsCall(e)
    ensures SameStacks(Saved(s, e.frame), Affected(s, e)) && Affected(s, e).current == s.current
  {
    if e.ThreadExit? {
      EndedSameStacks(s, e.frame);
      EndedIs(s, e.frame);
    }
  }

  lemma SameStacksStayReady(s: KState, r: KState)
    requires s.WF() && r.WF() && s.current != NULL && StacksAreSaved(s) && SameStacks(s, r) && r.current == s.current
    ensures StacksAreSaved(r)
    ensures NoHandlerEnds(s.Current().frames) ==> NoHandlerEnds(r.Current().frames)
  {
    SameStacksStaySaved(s, r);
  }

  lemma OtherAffectedStaysSaved(s: KState, e: Event)
    requires Core(s) && StacksAreSound(s) && Allowed(s, e) && IsEntry(e) && !IsCall(e)
    ensures StacksAreSaved(Affected(s, e)) && Affected(s, e).current == s.current
    ensures e.TimerControl? ==> NoHandlerEnds(Affected(s, e).Current().frames)
  {
    EntrySaves(s, e.frame);
    OtherAffectedSameStacks(s, e);
    SameStacksStayReady(Saved(s, e.frame), Affected(s, e));
  }

  lemma AnswerKeepsSaved(frames: seq<Frame>, after: seq<Frame>, depth: int, stackEnd: int)
    requires AnsweredAt(frames, after, depth) && IsSavedStack(frames, stackEnd)
    ensures IsSavedStack(after, stackEnd) && (NoHandlerEnds(frames) ==> NoHandlerEnds(after))
  {
    var top := |frames| - 1;
    assert forall k | 0 <= k < top :: after[..top][k].pc == frames[..top][k].pc;
  }

  lemma LeavingKeepsSound(x: KState, runs: bool, z: KState, depth: int)
    requires Ends(x, runs, z, depth) && StacksAreSaved(x) && (!runs ==> NoHandlerEnds(x.threads[x.current].frames))
    ensures StacksAreSound(Resumed(z))
  {
    var y := Picked(x, runs, z.next);
    if runs {
      SwitchKeepsSaved(x, z.next);
    }
    AnswersKeepReady(y, z, x.current, depth);
    ResumeKeepsSound(z);
  }

  lemma AnswersKeepReady(y: KState, z: KState, who: int, depth: int)
    requires y.WF() && z.WF() && y.next == z.next != NULL && SameLives(y, z) && OnlyAnswers(y, z, who, depth)
    requires StacksAreSaved(y) && NoHandlerEnds(y.threads[y.next].frames)
    ensures ReadyToResume(z)
  {
    forall i | 0 <= i < |z.threads|
      ensures IsSavedStack(z.threads[i].frames, z.threads[i].stackEnd)
      ensures NoHandlerEnds(y.threads[i].frames) ==> NoHandlerEnds(z.threads[i].frames)
    {
      assert SameLife(y.threads[i], z.threads[i]);
      AnswerKeepsSaved(y.threads[i].frames, z.threads[i].frames, if i == who then depth else -1, y.threads[i].stackEnd);
    }
  }

  // ---- Steps and runs

  lemma StepKeepsSound(s: KState, e: Event)
    requires Core(s) && StacksAreSound(s) && Allowed(s, e) && Step(s, e).exit.None? && SetsNoHandlerEnd(e)
    ensures StacksAreSound(Step(s, e))
  {
    if IsEntry(e) {
      EntryParts(s, e);
      if IsCall(e) {
        CallAffectedReadies(s, e.frame, e.call);
      } else {
        OtherAffectedStaysSaved(s, e);
      }
      LeavingKeepsSound(Affected(s, e), Schedules(s, e), Leaving(s, e), AnswerDepth(s, e));
    }
  }

  lemma BootIsSound(s: KState, start: StartUp)
    requires IsCold(s) && Booted(s, start).exit.None?
    ensures StacksAreSound(Booted(s, start))
  {
    BootEstablishesCore(s, start);
    FirstThreadIs(s, start);
    FirstThreadIsFound(s, start);
    var x := WithFirstThread(s, start).0;
    FirstStackIsBelowEnd(s, start);
    forall i | 0 <= i < |s.threads|
      ensures IsSavedStack(x.threads[i].frames, x.threads[i].stackEnd)
    {
      AlignDownIs(s.threads[i].stackEnd);
      NewStackIsSaved(s.threads[i], x.threads[i].frames[0]);
    }
    SwitchKeepsSaved(x, 0);
    ResumeKeepsSound(SwitchTo(x, 0));
  }

  lemma FirstStackIsBelowEnd(s: KState, start: StartUp)
    requires IsCold(s) && WithFirstThread(s, start).1 == 0
    ensures var t := WithFirstThread(s, start).0.threads[0];
            |t.frames| == 1 && t.frames[0].sp + CONTEXT_SIZE <= t.stackEnd
  {
    AlignDownIs(s.threads[0].stackEnd);
    if start.Program? {
      AlignDownIs(AlignDown(s.threads[0].stackEnd) - CONTEXT_SIZE - (|start.filename| + 1) - ARGS_SIZE);
    }
  }

  /** In every run that sets no saved pc to the end marker by hand, only the top context of a
      suspended thread can be a finished handler's, it lies right below the context the handler
      interrupted, and no thread is ever resumed there. */
  lemma {:induction false} EveryRunKeepsSound(s: KState, es: seq<Event>)
    requires Core(s) && StacksAreSound(s) && IsRun(s, es) && Run(s, es).exit.None?
    requires forall e | e in es :: SetsNoHandlerEnd(e)
    ensures StacksAreSound(Run(s, es))
    decreases |es|
  {
    if es == [] {
    } else {
      var r := Step(s, es[0]);
      RunGoesOn(s, es);
      StepKeepsCore(s, es[0]);
      StepKeepsSound(s, es[0]);
      EveryRunKeepsSound(r, es[1..]);
    }
  }
}
