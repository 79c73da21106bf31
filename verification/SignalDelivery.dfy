/** Interrupted code resumes unchanged. */
module SignalDelivery {
  import opened Basics
  import opened Threads
  import opened Scheduler
  import opened Lifecycle
  import opened Rings
  import opened Steps
  import opened CoreInvariant
  import opened Effects
  import opened StepParts
  import opened SignalStacks

  // ---- Contexts that wait on the stack

  /** The contexts `base` still lie at the bottom of thread i's stack. */
  ghost predicate StillWaits(s: KState, i: int, base: seq<Frame>) {
    0 <= i < |s.threads| && base <= s.threads[i].frames
  }

  /** The base can be waited for: its top context is code that was interrupted, not a handler's end. */
  predicate IsInterrupted(base: seq<Frame>) {
    base != [] && base[|base| - 1].pc != HANDLER_END
  }

  /** Thread i runs on from exactly the top context of the base, at its own stack address. */
  ghost predicate HasResumed(s: KState, i: int, base: seq<Frame>)
    requires base != []
  {
    && 0 <= i < |s.threads| && s.current == i
    && s.cpu == base[|base| - 1] && s.threads[i].frames == base[..|base| - 1]
  }

  lemma CheckKeepsBase(frames: seq<Frame>, pending: SignalMask, handler: int, stackEnd: int, base: seq<Frame>)
    requires IsInterrupted(base) && base <= frames
    ensures base <= CheckedFrames(frames, pending, handler, stackEnd)
  {
    if HandlerDone(frames) {
      assert frames[|frames| - 1] != base[|base| - 1];
      assert |base| < |frames|;
    }
  }

  lemma SwitchKeepsBase(s: KState, next: int, i: int, base: seq<Frame>)
    requires s.WF() && 0 <= next < |s.threads| && IsInterrupted(base) && StillWaits(s, i, base)
    ensures StillWaits(SwitchTo(s, next), i, base)
  {
    SwitchedFrames(s, next);
    var t := s.threads[next];
    if next == i {
      CheckKeepsBase(t.frames, t.pendingSignals, t.signalHandler, t.stackEnd, base);
    }
  }

  lemma ResumeKeepsBase(s: KState, i: int, base: seq<Frame>)
    requires s.WF() && s.next != NULL && IsInterrupted(base) && StillWaits(s, i, base)
    ensures StillWaits(Resumed(s), i, base) || HasResumed(Resumed(s), i, base)
  {
    var frames := s.threads[i].frames;
    if s.next == i {
      if |frames| == |base| {
        assert frames == base;
      } else {
        assert base <= frames[..|frames| - 1];
      }
    }
  }

  // ---- Effects

  /** The call sets the registers of thread i. */
  predicate SetsRegistersOf(s: KState, call: Call, i: int)
    requires s.WF()
  {
    call.SetThreadProperty? && call.value.Some? && call.value.value.PropRegisters? && ResolvedTid(s, call.tid) == i
  }

  lemma EffectKeepsBase(s: KState, call: Call, i: int, base: seq<Frame>)
    requires Core(s) && CallIsUsable(s, call) && IsInterrupted(base) && StillWaits(s, i, base)
    requires !StartsLife(s, Syscall(s.cpu, call, true), i)
    requires SetsRegistersOf(s, call, i) ==> |base| < |s.threads[i].frames|
    ensures StillWaits(CallEffect(s, call), i, base)
  {
    if call.SetThreadProperty? {
      SetPropertyFrames(s, call.tid, call.value);
      SetPropertyEffect(s, call);
    } else {
      CallEffectChanges(s, call);
      ChangesKeepFrames(s, call, CallEffect(s, call), i);
    }
  }

  lemma ChangesKeepFrames(s: KState, call: Call, r: KState, i: int)
    requires Core(s) && CallChanges(s, call, r) && 0 <= i < |s.threads| && !call.SetThreadProperty?
    requires !StartsLife(s, Syscall(s.cpu, call, true), i)
    ensures r.threads[i].frames == s.threads[i].frames
  {
  }

  /** The event neither gives slot i a new life nor sets the registers of its waiting context. */
  ghost predicate LeavesWaitingAlone(s: KState, e: Event, i: int, base: seq<Frame>)
    requires s.WF() && 0 <= i < |s.threads|
  {
    && !StartsLife(s, e, i)
    && (IsCall(e) && i != s.current && SetsRegistersOf(s, e.call, i) ==> |base| < |s.threads[i].frames|)
  }

  lemma EntryKeepsBase(s: KState, f: Frame, i: int, base: seq<Frame>)
    requires s.WF() && s.current != NULL && StillWaits(s, i, base)
    ensures StillWaits(CallEntry(s, f), i, base) && |CallEntry(s, f).threads[i].frames| >= |s.threads[i].frames|
    ensures i == s.current ==> |base| < |CallEntry(s, f).threads[i].frames|
  {
  }

  lemma EntryKeepsLife(s: KState, f: Frame, call: Call, i: int)
    requires Core(s) && CallIsUsable(s, call) && !StartsLife(s, Syscall(f, call, true), i)
    ensures var entered := CallEntry(s, f);
            !StartsLife(entered, Syscall(entered.cpu, call, true), i)
            && (forall k :: SetsRegistersOf(entered, call, k) <==> SetsRegistersOf(s, call, k))
  {
    SameReusable(s.threads, Saved(s, f).threads, 0);
  }

  lemma CallAffectedKeepsBase(s: KState, f: Frame, call: Call, i: int, base: seq<Frame>)
    requires Core(s) && Allowed(s, Syscall(f, call, true)) && Step(s, Syscall(f, call, true)).exit.None?
    requires IsInterrupted(base) && StillWaits(s, i, base) && LeavesWaitingAlone(s, Syscall(f, call, true), i, base)
    ensures StillWaits(Affected(s, Syscall(f, call, true)), i, base)
  {
    CallStepIs(s, f, call);
    EntryKeepsLife(s, f, call, i);
    EntryKeepsBase(s, f, i, base);
    EffectKeepsBase(CallEntry(s, f), call, i, base);
  }

  lemma OtherAffectedKeepsBase(s: KState, e: Event, i: int, base: seq<Frame>)
    requires Core(s) && Allowed(s, e) && IsEntry(e) && !IsCall(e) && !e.ThreadExit?
    requires StillWaits(s, i, base)
    ensures StillWaits(Affected(s, e), i, base)
  {
    EntryKeepsBase(s, e.frame, i, base);
  }

  lemma AffectedKeepsBase(s: KState, e: Event, i: int, base: seq<Frame>)
    requires Core(s) && Allowed(s, e) && IsEntry(e) && Step(s, e).exit.None?
    requires IsInterrupted(base) && StillWaits(s, i, base) && LeavesWaitingAlone(s, e, i, base)
    ensures StillWaits(Affected(s, e), i, base)
  {
    if IsCall(e) {
      CallAffectedKeepsBase(s, e.frame, e.call, i, base);
    } else if e.ThreadExit? {
      EndedIs(s, e.frame);
    } else {
      OtherAffectedKeepsBase(s, e, i, base);
    }
  }

  // ---- Steps

  lemma LeavingKeepsBase(x: KState, runs: bool, z: KState, depth: int, i: int, base: seq<Frame>)
    requires Ends(x, runs, z, depth) && IsInterrupted(base) && StillWaits(x, i, base)
    requires i == x.current ==> depth == -1 || |base| <= depth
    ensures StillWaits(Resumed(z), i, base) || HasResumed(Resumed(z), i, base)
  {
    var y := Picked(x, runs, z.next);
    if runs {
      SwitchKeepsBase(x, z.next, i, base);
    }
    assert AnsweredAt(y.threads[i].frames, z.threads[i].frames, if i == y.current then depth else -1);
    assert base <= z.threads[i].frames;
    ResumeKeepsBase(z, i, base);
  }

  /** A step leaves contexts that wait on a stack as they are, or resumes exactly the topmost one. */
  lemma StepKeepsBase(s: KState, e: Event, i: int, base: seq<Frame>)
    requires Core(s) && Allowed(s, e) && Step(s, e).exit.None?
    requires IsInterrupted(base) && StillWaits(s, i, base) && LeavesWaitingAlone(s, e, i, base)
    ensures StillWaits(Step(s, e), i, base) || HasResumed(Step(s, e), i, base)
  {
    if IsEntry(e) {
      EntryParts(s, e);
      AffectedKeepsBase(s, e, i, base);
      LeavingKeepsBase(Affected(s, e), Schedules(s, e), Leaving(s, e), AnswerDepth(s, e), i, base);
    }
  }

  // ---- Runs

  ghost predicate RunLeavesWaitingAlone(s: KState, es: seq<Event>, i: int, base: seq<Frame>)
    requires IsRun(s, es) && 0 <= i
    decreases |es|
  {
    es == []
    || (i < |s.threads| && LeavesWaitingAlone(s, es[0], i, base)
        && (!StillWaits(Step(s, es[0]), i, base) || RunLeavesWaitingAlone(Step(s, es[0]), es[1..], i, base)))
  }

  /** The base waits throughout the run, or until it is resumed intact. */
  ghost predicate WaitsOrResumes(s: KState, es: seq<Event>, i: int, base: seq<Frame>)
    requires IsRun(s, es) && base != []
    decreases |es|
  {
    es == [] || Step(s, es[0]).exit.Some?
    || (StillWaits(Step(s, es[0]), i, base) && WaitsOrResumes(Step(s, es[0]), es[1..], i, base))
    || HasResumed(Step(s, es[0]), i, base)
  }

  /** However handlers above it yield, nest and finish, and whoever runs in between, interrupted
      code is resumed from exactly the context it was interrupted with. */
  lemma {:induction false} InterruptedCodeResumesIntact(s: KState, es: seq<Event>, i: int, base: seq<Frame>)
    requires Core(s) && IsRun(s, es) && 0 <= i
    requires IsInterrupted(base) && StillWaits(s, i, base) && RunLeavesWaitingAlone(s, es, i, base)
    ensures WaitsOrResumes(s, es, i, base)
    decreases |es|
  {
    if es == [] {
    } else {
      var r := Step(s, es[0]);
      if r.exit.None? {
        StepKeepsCore(s, es[0]);
        StepKeepsBase(s, es[0], i, base);
        if StillWaits(r, i, base) {
          InterruptedCodeResumesIntact(r, es[1..], i, base);
        }
      }
    }
  }
}
