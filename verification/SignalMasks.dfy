/** Pending signals: sending adds them, scheduling takes the lowest or drops them all without a handler. */
module SignalMasks {
  import opened Basics
  import opened Threads
  import opened Scheduler
  import opened Lifecycle
  import opened Rings
  import opened Steps
  import opened CoreInvariant
  import opened Effects
  import opened Choices
  import opened StepParts
  import opened CallSteps
  import opened ErrNo
  import opened Answers
  import opened Properties
  import opened SignalRuns
  import NewLives

  // ---- Effects

  /** What a delivery to a thread depends on. */
  datatype Signals = Signals(pending: SignalMask, handler: int)

  function SignalsOf(t: Thread): Signals {
    Signals(t.pendingSignals, t.signalHandler)
  }

  /** Setting property p adds a signal to those pending, or sets the handler. */
  function AfterSet(g: Signals, p: Property): Signals
    requires p.PropPendingSignals? ==> p.signal <= 32
  {
    match p
    case PropPendingSignals(signal) => if signal == 0 then g else g.(pending := g.pending + {signal - 1})
    case PropSignalHandler(handler) => g.(handler := handler)
    case _ => g
  }

  /** What a call makes of thread i's signals: a new life starts without, a set adds. */
  ghost function CallSignals(s: KState, call: Call, i: int): Signals
    requires s.WF() && s.current != NULL && CallIsUsable(s, call) && 0 <= i < |s.threads|
  {
    var g := SignalsOf(s.threads[i]);
    if call.AddThread? && i == CreatedId(s, call) then Signals({}, 0)
    else if call.Restart? && i == s.current then Signals({}, 0)
    else if call.SetThreadProperty? && ReportedError(s, call) == 0 && ResolvedTid(s, call.tid) == i
    then AfterSet(g, call.value.value)
    else g
  }

  ghost function EffectSignals(s: KState, e: Event, i: int): Signals
    requires Allowed(s, e) && 0 <= i < |s.threads|
  {
    if IsCall(e) then CallSignals(s, e.call, i) else SignalsOf(s.threads[i])
  }

  ghost predicate HasSignals(s: KState, call: Call, r: KState)
    requires s.WF() && s.current != NULL && CallIsUsable(s, call)
  {
    |r.threads| == |s.threads| && forall i | 0 <= i < |s.threads| :: SignalsOf(r.threads[i]) == CallSignals(s, call, i)
  }

  lemma AddSignals(s: KState, call: Call)
    requires Core(s) && call.AddThread?
    ensures HasSignals(s, call, CallEffect(s, call))
  {
    if CreatedId(s, call) != INVALID_THREAD {
      NewLives.CallCreates(s, call);
    } else {
      NewLives.RefusalCreatesNothing(s, call);
    }
  }

  lemma RestartSignals(s: KState, call: Call)
    requires Core(s) && call.Restart? && CallIsUsable(s, call)
    ensures HasSignals(s, call, CallEffect(s, call))
  {
  }

  lemma SetSignals(s: KState, call: Call)
    requires Core(s) && call.SetThreadProperty? && CallIsUsable(s, call)
    ensures HasSignals(s, call, CallEffect(s, call))
  {
    if call.value.Some? {
      SetEffect(s, call.tid, call.value.value);
      if ReportedError(s, call) == 0 {
        SetMovesSignals(s.threads, CallEffect(s, call).threads, ResolvedTid(s, call.tid), call.value.value);
      }
    } else {
      SetPropertyEffect(s, call);
    }
  }

  lemma SetMovesSignals(ts: seq<Thread>, us: seq<Thread>, i: int, p: Property)
    requires 0 <= i < |ts| && IsSet(ts, us, i, p) && (p.PropPendingSignals? ==> p.signal <= 32)
    ensures |us| == |ts|
    ensures forall k | 0 <= k < |ts| ::
              SignalsOf(us[k]) == if k == i then AfterSet(SignalsOf(ts[k]), p) else SignalsOf(ts[k])
  {
  }

  lemma OtherSignals(s: KState, call: Call)
    requires Core(s) && CallIsUsable(s, call) && !call.AddThread? && !call.Restart? && !call.SetThreadProperty?
    ensures HasSignals(s, call, CallEffect(s, call))
  {
    if call.ThreadCancel? {
      CancelChangesSlot(s, call.tid);
    } else {
      PlainCallKeeps(s, call);
    }
  }

  lemma CallMovesSignals(s: KState, call: Call)
    requires Core(s) && CallIsUsable(s, call)
    ensures HasSignals(s, call, CallEffect(s, call))
  {
    if call.AddThread? {
      AddSignals(s, call);
    } else if call.Restart? {
      RestartSignals(s, call);
    } else if call.SetThreadProperty? {
      SetSignals(s, call);
    } else {
      OtherSignals(s, call);
    }
  }

  lemma SameCallSignals(s: KState, x: KState, call: Call)
    requires SameForResults(s, x) && CallIsUsable(s, call) && CallIsUsable(x, call)
    ensures forall i | 0 <= i < |s.threads| :: CallSignals(x, call, i) == CallSignals(s, call, i)
  {
    if call.AddThread? {
      SameCreatedId(s, x, call);
    } else if call.SetThreadProperty? {
      SameReports(s, x, call);
      assert ResolvedTid(x, call.tid) == ResolvedTid(s, call.tid);
    }
  }

  lemma CallAffectsSignals(s: KState, f: Frame, call: Call)
    requires IsHandled(s, f, call)
    ensures var x := CallEntry(s, f);
            Core(x) && CallIsUsable(x, call) && HasSignals(s, call, CallEffect(x, call))
  {
    CallStepIs(s, f, call);
    EntrySameForResults(s, f);
    CallMovesSignals(CallEntry(s, f), call);
    SameCallSignals(s, CallEntry(s, f), call);
  }

  ghost predicate AffectedHasSignals(s: KState, e: Event, x: KState)
    requires Allowed(s, e)
  {
    |x.threads| == |s.threads| && forall i | 0 <= i < |s.threads| :: SignalsOf(x.threads[i]) == EffectSignals(s, e, i)
  }

  lemma StepAffectsSignals(s: KState, e: Event)
    requires Core(s) && Allowed(s, e) && IsEntry(e) && Step(s, e).exit.None?
    ensures AffectedHasSignals(s, e, Affected(s, e))
  {
    if IsCall(e) {
      CallAffectsSignals(s, e.frame, e.call);
      CallAffects(s, e.frame, e.call);
    } else if e.ThreadExit? {
      EndedIs(s, e.frame);
    } else {
      EnteredTouches(s, e);
      QuietEffectKeepsSignals(s, e);
    }
  }

  lemma QuietEffectKeepsSignals(s: KState, e: Event)
    requires Core(s) && Allowed(s, e) && IsEntry(e) && !IsCall(e) && !e.ThreadExit?
    ensures AffectedHasSignals(s, e, Affected(s, e))
  {
  }

  // ---- The check

  /** What is left once thread i is scheduled: all signals but the lowest, or none without a handler. */
  ghost predicate IsChecked(g: Signals, after: Signals) {
    && after.handler == g.handler
    && if g.handler == 0 || g.pending == {} then after.pending == {}
       else exists b :: IsLowest(b, g.pending) && after.pending == g.pending - {b}
  }

  predicate IsLowest(b: int, pending: SignalMask) {
    b in pending && forall c | c in pending :: b <= c
  }

  /** The context that calls the handler for signal b + 1, below what is on the thread's stack. */
  ghost predicate CallsHandler(f: Frame, b: int, handler: int, below: int) {
    f == Frame(below - CONTEXT_SIZE, HANDLER_WRAPPER, b + 1, handler, 0)
  }

  lemma CheckMovesSignals(t: Thread)
    ensures IsChecked(SignalsOf(t), SignalsOf(CheckSignals(t)))
  {
    if t.signalHandler != 0 && t.pendingSignals != {} {
      LowestIsTaken(t.pendingSignals);
      assert IsLowest(NextSignal(t.pendingSignals, 0) - 1, t.pendingSignals);
    }
  }

  lemma EndsMoveSignals(x: KState, runs: bool, z: KState, depth: int, i: int)
    requires Ends(x, runs, z, depth) && 0 <= i < |x.threads|
    ensures var r := Resumed(z);
            && r.current == z.next && |r.threads| == |x.threads|
            && if runs && i == z.next then IsChecked(SignalsOf(x.threads[i]), SignalsOf(r.threads[i]))
               else SignalsOf(r.threads[i]) == SignalsOf(x.threads[i])
  {
    var y := Picked(x, runs, z.next);
    assert SameLife(y.threads[i], z.threads[i]);
    if runs {
      SwitchChecksNext(x, z.next, i);
      CheckMovesSignals(x.threads[i]);
    }
  }

  // ---- Steps and runs

  /** Every step moves the pending signals of every thread exactly so: what is sent is added, and a schedule
      takes the lowest, or drops all of a thread that has no handler. */
  lemma StepMovesSignals(s: KState, e: Event, i: int)
    requires Core(s) && Allowed(s, e) && Step(s, e).exit.None? && 0 <= i < |s.threads|
    ensures var r := Step(s, e); var g := EffectSignals(s, e, i);
            && |r.threads| == |s.threads|
            && if Schedules(s, e) && r.current == i then IsChecked(g, SignalsOf(r.threads[i]))
               else SignalsOf(r.threads[i]) == g
  {
    if IsEntry(e) {
      EntryParts(s, e);
      StepAffectsSignals(s, e);
      EndsMoveSignals(Affected(s, e), Schedules(s, e), Leaving(s, e), AnswerDepth(s, e), i);
    }
  }

  /** Where a thread's stack is used down to: its last saved context, or else its aligned end. */
  function LowestUsed(t: Thread): int {
    if t.frames == [] then t.stackEnd - t.stackEnd % 8 else t.frames[|t.frames| - 1].sp
  }

  /** Thread i runs the handler for the lowest signal pending in g, in a context below all that is on its
      stack. */
  ghost predicate HandlesLowest(r: KState, i: int, g: Signals) {
    && 0 <= i < |r.threads| && r.current == i
    && exists b :: IsLowest(b, g.pending)
                   && CallsHandler(r.cpu, b, g.handler, LowestUsed(r.threads[i]))
  }

  lemma EndsDeliver(x: KState, z: KState, depth: int)
    requires Ends(x, true, z, depth)
    requires var t := x.threads[z.next];
             && t.signalHandler != 0 && t.pendingSignals != {}
             && (z.next == x.current ==> depth < |WithoutDoneHandler(t.frames)|)
    ensures HandlesLowest(Resumed(z), z.next, SignalsOf(x.threads[z.next]))
  {
    var i, y, t := z.next, Picked(x, true, z.next), x.threads[z.next];
    var kept := WithoutDoneHandler(t.frames);
    SwitchChecksNext(x, i, i);
    assert SameLife(y.threads[i], z.threads[i]);
    assert AnsweredAt(y.threads[i].frames, z.threads[i].frames, if i == x.current then depth else -1);
    var first := NextSignal(t.pendingSignals, 0);
    assert y.threads[i].frames == kept + [HandlerFrame(kept, t.stackEnd, first, t.signalHandler)];
    LowestIsTaken(t.pendingSignals);
    var r := Resumed(z);
    assert |r.threads[i].frames| == |kept|;
    assert kept != [] ==> r.threads[i].frames[|kept| - 1].sp == kept[|kept| - 1].sp;
    assert IsLowest(NextSignal(t.pendingSignals, 0) - 1, t.pendingSignals);
  }

  /** Who is scheduled with a handler and a signal pending runs the handler for the lowest. */
  lemma ScheduleDelivers(s: KState, e: Event)
    requires Core(s) && Allowed(s, e) && Step(s, e).exit.None? && Schedules(s, e)
    requires 0 <= Step(s, e).current < |s.threads|
    ensures var i := Step(s, e).current; var g := EffectSignals(s, e, i);
            g.handler != 0 && g.pending != {} ==> HandlesLowest(Step(s, e), i, g)
  {
    EntryParts(s, e);
    StepAffectsSignals(s, e);
    var x, z, i := Affected(s, e), Leaving(s, e), Step(s, e).current;
    var g := EffectSignals(s, e, i);
    assert SignalsOf(x.threads[i]) == g;
    if g.handler != 0 && g.pending != {} {
      AnswerIsBelow(s, e);
      EndsDeliver(x, z, AnswerDepth(s, e));
    }
  }

  /** The context that is answered lies below a handler's. */
  lemma AnswerIsBelow(s: KState, e: Event)
    requires Core(s) && Allowed(s, e) && IsEntry(e) && Step(s, e).exit.None? && Schedules(s, e)
    requires |Affected(s, e).threads| == |s.threads|
    ensures var i := Step(s, e).current;
            i == s.current ==> AnswerDepth(s, e) < |WithoutDoneHandler(Affected(s, e).threads[i].frames)|
  {
    if IsCall(e) {
      CallStepIs(s, e.frame, e.call);
      CallerLiesOnTop(s, e.frame, e.call, CallEffect(CallEntry(s, e.frame), e.call));
    }
  }

  lemma CallerLiesOnTop(s: KState, f: Frame, call: Call, y: KState)
    requires Core(s) && RunsScheduler(s, call) && f.pc != HANDLER_END
    requires var x := CallEntry(s, f); Core(x) && CallIsUsable(x, call) && y == CallEffect(x, call)
    requires |y.threads| == |s.threads|
    ensures |s.Current().frames| < |WithoutDoneHandler(y.threads[s.current].frames)|
  {
    EntrySchedulesSame(s, f, call);
    SchedulingKeepsContext(CallEntry(s, f), s.Current().frames, f, call);
  }

  lemma EntrySchedulesSame(s: KState, f: Frame, call: Call)
    requires Core(s) && RunsScheduler(s, call)
    ensures var x := CallEntry(s, f);
            RunsScheduler(x, call) && x.current == s.current && |x.threads| == |s.threads|
            && x.Current().frames == s.Current().frames + [f]
  {
    CallEntryTouches(s, f);
    EntryDecidesSame(s, CallEntry(s, f), call);
  }

  // ---- Whole runs

  /** The signals sent to thread i in a step. */
  ghost function SentIn(s: KState, e: Event, i: int): SignalMask
    requires Allowed(s, e)
  {
    if IsCall(e) && e.call.SetThreadProperty? && ReportedError(s, e.call) == 0 && ResolvedTid(s, e.call.tid) == i
       && e.call.value.value.PropPendingSignals? && e.call.value.value.signal > 0
    then {e.call.value.value.signal - 1} else {}
  }

  ghost function SentAlong(s: KState, es: seq<Event>, i: int): SignalMask
    requires IsRun(s, es)
    decreases |es|
  {
    if es == [] then {} else SentIn(s, es[0], i) + SentAlong(Step(s, es[0]), es[1..], i)
  }

  /** Thread i does not run, lives on and keeps its handler. */
  ghost predicate StaysAway(s: KState, es: seq<Event>, i: int)
    requires IsRun(s, es)
    decreases |es|
  {
    es == []
    || (&& Step(s, es[0]).exit.None? && Step(s, es[0]).current != i && !StartsLife(s, es[0], i)
        && !SetsHandlerOf(s, es[0], i) && StaysAway(Step(s, es[0]), es[1..], i))
  }

  predicate SetsHandlerOf(s: KState, e: Event, i: int)
    requires s.WF()
  {
    && IsCall(e) && e.call.SetThreadProperty? && ResolvedTid(s, e.call.tid) == i
    && e.call.value.Some? && e.call.value.value.PropSignalHandler?
  }

  lemma EffectAdds(s: KState, e: Event, i: int)
    requires Core(s) && Allowed(s, e) && 0 <= i < |s.threads| && !StartsLife(s, e, i) && !SetsHandlerOf(s, e, i)
    ensures var g := SignalsOf(s.threads[i]); EffectSignals(s, e, i) == g.(pending := g.pending + SentIn(s, e, i))
  {
    if IsCall(e) && e.call.AddThread? {
      CreatedIsReusable(s, e.call);
    }
  }

  lemma AwayAddsSignals(s: KState, e: Event, i: int)
    requires Core(s) && Allowed(s, e) && Step(s, e).exit.None? && 0 <= i < |s.threads| && Step(s, e).current != i
    requires !StartsLife(s, e, i) && !SetsHandlerOf(s, e, i)
    ensures var r, g := Step(s, e), SignalsOf(s.threads[i]);
            |r.threads| == |s.threads| && SignalsOf(r.threads[i]) == g.(pending := g.pending + SentIn(s, e, i))
  {
    StepMovesSignals(s, e, i);
    EffectAdds(s, e, i);
  }

  lemma CreatedIsReusable(s: KState, call: Call)
    requires s.WF() && s.current != NULL && call.AddThread?
    ensures CreatedId(s, call) == INVALID_THREAD || CreatedId(s, call) == FirstReusable(s.threads, 0)
  {
  }

  /** Signals sent to a thread that does not run add up, whoever sends them and whatever happens in between. */
  lemma {:induction false} EveryRunAddsSignals(s: KState, es: seq<Event>, i: int)
    requires Core(s) && IsRun(s, es) && 0 <= i < |s.threads| && StaysAway(s, es, i)
    ensures var r, g := Run(s, es), SignalsOf(s.threads[i]);
            && Core(r) && |r.threads| == |s.threads|
            && SignalsOf(r.threads[i]) == g.(pending := g.pending + SentAlong(s, es, i))
    decreases |es|
  {
    if es == [] {
    } else {
      StepKeepsCore(s, es[0]);
      AwayAddsSignals(s, es[0], i);
      EveryRunAddsSignals(Step(s, es[0]), es[1..], i);
    }
  }

  /** All signals sent while a thread does not run are then handled once each, in ascending order, one in each
      of its schedules, before it goes on with its own code. */
  lemma SentSignalsAreHandled(s: KState, sends: seq<Event>, es: seq<Event>, i: int, m: SignalMask)
    requires Core(s) && IsRun(s, sends) && 0 <= i < |s.threads| && StaysAway(s, sends, i) && s.current != i
    requires m == s.threads[i].pendingSignals + SentAlong(s, sends, i) && s.threads[i].signalHandler != 0
    requires HandlesOnly(Run(s, sends), es, i, m)
    ensures var r := Run(s, sends);
            && 0 <= i < |r.threads|
            && InOrder(SchedulesOf(r, es, i), m, s.threads[i].signalHandler, WithoutDoneHandler(r.threads[i].frames),
                       r.threads[i].stackEnd)
  {
    EveryRunAddsSignals(s, sends, i);
    var r := Run(s, sends);
    var t := r.threads[i];
    assert SignalsOf(t) == Signals(m, s.threads[i].signalHandler);
    PendingDrains(r, i, m);
    PendingAreHandled(r, es, i, m, WithoutDoneHandler(t.frames), t.signalHandler, t.stackEnd);
  }

  /** Thread i does not run yet, and in its next schedules it only runs handlers that do not yield, for as long
      as it has signals from mask m. */
  ghost predicate HandlesOnly(r: KState, es: seq<Event>, i: int, m: SignalMask) {
    && IsRun(r, es) && Run(r, es).exit.None? && HandlersOnly(r, es, i, |m| + 1) && |SchedulesOf(r, es, i)| > |m|
    && (0 <= i < |r.threads| ==> r.current != i && WithoutDoneHandler(r.threads[i].frames) != [])
  }

  /** The contexts q that a thread is resumed from: one call of the handler for each signal of m, in order, from
      below the base, and then the top of the base. */
  ghost predicate InOrder(q: seq<Frame>, m: SignalMask, handler: int, base: seq<Frame>, stackEnd: int) {
    && |q| > |m| && base != [] && CallsInOrder(q[..|m|], m, handler, StackPtr(base, stackEnd) - CONTEXT_SIZE)
    && q[|m|] == base[|base| - 1]
  }

  lemma PendingDrains(r: KState, i: int, m: SignalMask)
    requires 0 <= i < |r.threads| && r.current != i && r.threads[i].pendingSignals == m
    ensures var t := r.threads[i];
            Draining(r, i, WithoutDoneHandler(t.frames), m, t.signalHandler, t.stackEnd)
  {
  }

  lemma PendingAreHandled(r: KState, es: seq<Event>, i: int, m: SignalMask, base: seq<Frame>, handler: int,
                          stackEnd: int)
    requires Core(r) && IsRun(r, es) && Run(r, es).exit.None?
    requires base != [] && handler != 0 && Draining(r, i, base, m, handler, stackEnd)
    requires HandlersOnly(r, es, i, |m| + 1) && |SchedulesOf(r, es, i)| > |m|
    ensures InOrder(SchedulesOf(r, es, i), m, handler, base, stackEnd)
  {
    MaskIsDrainedInEveryRun(r, es, i, base, m, handler, stackEnd);
  }
}
