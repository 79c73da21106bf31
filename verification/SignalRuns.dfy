/** Delivery of a pending mask over whole runs, with other threads doing as they like in between. */
module SignalRuns {
  import opened Basics
  import opened Threads
  import opened Scheduler
  import opened Lifecycle
  import opened Rings
  import opened Steps
  import opened CoreInvariant
  import opened Effects
  import opened Choices
  import opened StepParts

  predicate SameSignals(t: Thread, u: Thread) {
    u.frames == t.frames && u.pendingSignals == t.pendingSignals && u.signalHandler == t.signalHandler
      && u.stackEnd == t.stackEnd
  }

  // ---- Effects

  /** The call sets what a delivery to thread i depends on. */
  predicate SetsSignalsOf(s: KState, call: Call, i: int)
    requires s.WF()
  {
    && call.SetThreadProperty? && ResolvedTid(s, call.tid) == i && call.value.Some?
    && (call.value.value.PropPendingSignals? || call.value.value.PropSignalHandler? || call.value.value.PropRegisters?)
  }

  lemma WithPropertyKeepsSignals(s: KState, k: int, p: Property, i: int)
    requires s.WF() && IsValidThread(s.threads, k) && 0 <= i < |s.threads|
    requires k == i ==> !p.PropPendingSignals? && !p.PropSignalHandler? && !p.PropRegisters?
    ensures var r := WithProperty(s, k, p).0; |r.threads| == |s.threads| && SameSignals(s.threads[i], r.threads[i])
  {
    if p.PropChild? {
      LinkKeepsSignals(s, k, p.child, i);
    } else {
      OthersKeepRecord(s, k, p, i);
    }
  }

  lemma LinkKeepsSignals(s: KState, k: int, child: int, i: int)
    requires s.WF() && IsValidThread(s.threads, k) && 0 <= i < |s.threads|
    ensures var r := WithProperty(s, k, PropChild(child)).0;
            |r.threads| == |s.threads| && SameSignals(s.threads[i], r.threads[i])
  {
  }

  lemma OthersKeepRecord(s: KState, k: int, p: Property, i: int)
    requires s.WF() && IsValidThread(s.threads, k) && 0 <= i < |s.threads| && !p.PropChild?
    ensures var r := WithProperty(s, k, p).0;
            && |r.threads| == |s.threads| && (i != k ==> r.threads[i] == s.threads[i])
            && (i == k && !p.PropPendingSignals? && !p.PropSignalHandler? && !p.PropRegisters? ==>
                  SameSignals(s.threads[i], r.threads[i]))
  {
    match p {
      case PropName(_) => NameOnly(s, k, p);
      case PropPermissions(_) => PermissionsOnly(s, k, p);
      case PropRegisters(_) => SlotOnly(s, k, p);
      case PropPendingSignals(_) => SlotOnly(s, k, p);
      case PropSignalHandler(_) => SlotOnly(s, k, p);
      case _ => NothingSet(s, k, p);
    }
  }

  lemma NameOnly(s: KState, k: int, p: Property)
    requires s.WF() && IsValidThread(s.threads, k) && p.PropName?
    ensures WithProperty(s, k, p).0.threads == s.threads[k := s.threads[k].(name := Truncated(p.name))]
  {
  }

  lemma PermissionsOnly(s: KState, k: int, p: Property)
    requires s.WF() && IsValidThread(s.threads, k) && p.PropPermissions?
    ensures var t := s.threads[k];
            WithProperty(s, k, p).0.threads == s.threads[k := t.(permissions := t.permissions & !p.permissions)]
  {
  }

  lemma SlotOnly(s: KState, k: int, p: Property)
    requires s.WF() && IsValidThread(s.threads, k)
    requires p.PropRegisters? || p.PropPendingSignals? || p.PropSignalHandler?
    ensures var ts := WithProperty(s, k, p).0.threads; |ts| == |s.threads| && ts == s.threads[k := ts[k]]
  {
  }

  lemma NothingSet(s: KState, k: int, p: Property)
    requires s.WF() && IsValidThread(s.threads, k) && (p.PropParent? || p.PropState? || p.PropUnknown?)
    ensures WithProperty(s, k, p).0.threads == s.threads
  {
  }

  lemma SetPropertyKeepsSignals(s: KState, tid: int, value: Option<Property>, i: int)
    requires s.WF() && s.current != NULL && 0 <= i < |s.threads| && !SetsSignalsOf(s, SetThreadProperty(tid, value), i)
    ensures var r := SetPropertyCall(s, tid, value).0;
            |r.threads| == |s.threads| && SameSignals(s.threads[i], r.threads[i])
  {
    if value.Some? && IsValidThread(s.threads, ResolvedTid(s, tid)) {
      WithPropertyKeepsSignals(s, ResolvedTid(s, tid), value.value, i);
    }
  }

  lemma CallKeepsSignals(s: KState, call: Call, i: int)
    requires Core(s) && CallIsUsable(s, call) && 0 <= i < |s.threads|
    requires !SetsSignalsOf(s, call, i) && !StartsLife(s, Syscall(s.cpu, call, true), i)
    ensures var r := CallEffect(s, call); |r.threads| == |s.threads| && SameSignals(s.threads[i], r.threads[i])
  {
    if call.SetThreadProperty? {
      SetPropertyKeepsSignals(s, call.tid, call.value, i);
      SetPropertyEffect(s, call);
    } else {
      CallEffectChanges(s, call);
      ChangesKeepSignals(s, call, CallEffect(s, call), i);
    }
  }

  lemma ChangesKeepSignals(s: KState, call: Call, r: KState, i: int)
    requires Core(s) && CallChanges(s, call, r) && 0 <= i < |s.threads| && !call.SetThreadProperty?
    requires !StartsLife(s, Syscall(s.cpu, call, true), i)
    ensures SameSignals(s.threads[i], r.threads[i])
  {
  }

  /** The event starts no new life in slot i and sets none of its signals, handler or registers. */
  ghost predicate LeavesSignalsAlone(s: KState, e: Event, i: int)
    requires s.WF()
  {
    !StartsLife(s, e, i) && !(IsCall(e) && SetsSignalsOf(s, e.call, i))
  }

  lemma EnteringKeepsSignals(s: KState, f: Frame, call: Call, i: int)
    requires Core(s) && 0 <= i < |s.threads| && LeavesSignalsAlone(s, Syscall(f, call, true), i)
    ensures var entered := CallEntry(s, f);
            && |entered.threads| == |s.threads| && SameSignals(Saved(s, f).threads[i], entered.threads[i])
            && LeavesSignalsAlone(entered, Syscall(entered.cpu, call, true), i)
  {
    SameReusable(s.threads, Saved(s, f).threads, 0);
  }

  /** Thread i's record once the context is saved. */
  function SavedRecord(s: KState, e: Event, i: int): Thread
    requires s.WF() && s.current != NULL && 0 <= i < |s.threads| && IsEntry(e)
  {
    Saved(s, e.frame).threads[i]
  }

  lemma EffectKeepsSignals(s: KState, e: Event, i: int)
    requires Core(s) && Allowed(s, e) && IsEntry(e) && Step(s, e).exit.None?
    requires 0 <= i < |s.threads| == |Affected(s, e).threads|
    requires LeavesSignalsAlone(s, e, i)
    ensures SameSignals(SavedRecord(s, e, i), Affected(s, e).threads[i])
  {
    if IsCall(e) {
      CallEntryKeepsSignals(s, e.frame, e.call, i);
    } else {
      OtherEntryKeepsSignals(s, e, i);
    }
  }

  lemma CallEntryKeepsSignals(s: KState, f: Frame, call: Call, i: int)
    requires Core(s) && Allowed(s, Syscall(f, call, true)) && Step(s, Syscall(f, call, true)).exit.None?
    requires 0 <= i < |s.threads| && LeavesSignalsAlone(s, Syscall(f, call, true), i)
    ensures var x := Affected(s, Syscall(f, call, true));
            |x.threads| == |s.threads| && SameSignals(Saved(s, f).threads[i], x.threads[i])
  {
    CallStepIs(s, f, call);
    EnteringKeepsSignals(s, f, call, i);
    CallKeepsSignals(CallEntry(s, f), call, i);
  }

  lemma HiddenKeepsSignals(s: KState, e: Event, i: int)
    requires Core(s) && Allowed(s, e) && e.Syscall? && !e.stackOk && 0 <= i < |s.threads|
    ensures |Affected(s, e).threads| == |s.threads| && SameSignals(SavedRecord(s, e, i), Affected(s, e).threads[i])
  {
  }

  lemma EndedKeepsSignals(s: KState, f: Frame, i: int)
    requires s.WF() && s.current != NULL && 0 <= i < |s.threads|
    ensures |Ended(s, f).threads| == |s.threads| && SameSignals(Saved(s, f).threads[i], Ended(s, f).threads[i])
  {
    EndedIs(s, f);
  }

  lemma OtherEntryKeepsSignals(s: KState, e: Event, i: int)
    requires Core(s) && Allowed(s, e) && IsEntry(e) && !IsCall(e) && 0 <= i < |s.threads|
    ensures |Affected(s, e).threads| == |s.threads| && SameSignals(SavedRecord(s, e, i), Affected(s, e).threads[i])
  {
    if e.Syscall? {
      HiddenKeepsSignals(s, e, i);
    } else if e.ThreadExit? {
      EndedKeepsSignals(s, e.frame, i);
    }
  }

  // ---- Steps

  /** From record t, thread i either stays where it is, or is resumed in r after its signals were
      checked. */
  ghost predicate RunsChecked(t: Thread, r: KState, i: int) {
    && 0 <= i < |r.threads|
    && if r.current == i then
         var c := CheckSignals(t);
         r.cpu == TopFrame(c) && SameSignals(c.(frames := Popped(c.frames)), r.threads[i])
       else SameSignals(t, r.threads[i])
  }

  lemma SwitchChecksNext(s: KState, next: int, i: int)
    requires s.WF() && 0 <= next < |s.threads| && 0 <= i < |s.threads|
    ensures SameSignals(if next == i then CheckSignals(s.threads[i]) else s.threads[i], SwitchTo(s, next).threads[i])
  {
    var t := s.threads[i];
    assert SwitchTo(s, next).threads[i] == SwitchedThread(t, i == s.current, i == next, s.info.errNo);
  }

  lemma SwitchRunsChecked(x: KState, z: KState, i: int, depth: int)
    requires Ends(x, true, z, depth) && 0 <= i < |x.threads| && (i != x.current || depth == -1)
    ensures RunsChecked(x.threads[i], Resumed(z), i)
  {
    SwitchChecksNext(x, z.next, i);
    var y := Picked(x, true, z.next);
    assert SameLife(y.threads[i], z.threads[i]);
    assert AnsweredAt(y.threads[i].frames, z.threads[i].frames, -1);
    assert z.threads[i].frames == y.threads[i].frames;
  }

  /** When the scheduler runs, a thread is either left where it is, or resumed from its stack once its
      signals have been checked. */
  lemma ScheduleChecks(s: KState, e: Event, i: int)
    requires Core(s) && Allowed(s, e) && IsEntry(e) && Step(s, e).exit.None? && Schedules(s, e)
    requires 0 <= i < |s.threads| && LeavesSignalsAlone(s, e, i) && (i != s.current || !e.Syscall?)
    ensures RunsChecked(SavedRecord(s, e, i), Step(s, e), i)
  {
    EntryParts(s, e);
    EffectKeepsSignals(s, e, i);
    SwitchRunsChecked(Affected(s, e), Leaving(s, e), i, AnswerDepth(s, e));
    SameSignalsCheckSame(SavedRecord(s, e, i), Affected(s, e).threads[i], Step(s, e), i);
  }

  lemma SameSignalsCheckSame(t: Thread, u: Thread, r: KState, i: int)
    requires SameSignals(t, u) && RunsChecked(u, r, i)
    ensures RunsChecked(t, r, i)
  {
  }

  /** Without a schedule every thread stays where it was, the running one included. */
  lemma NoScheduleKeeps(s: KState, e: Event, i: int)
    requires Core(s) && Allowed(s, e) && Step(s, e).exit.None? && !Schedules(s, e)
    requires 0 <= i < |s.threads| && LeavesSignalsAlone(s, e, i)
    ensures Step(s, e).current == s.current && i < |Step(s, e).threads|
    ensures SameSignals(s.threads[i], Step(s, e).threads[i])
  {
    if IsEntry(e) {
      EntryParts(s, e);
      EffectKeepsSignals(s, e, i);
      AnsweredAndResumed(Affected(s, e), Leaving(s, e), AnswerDepth(s, e), s.threads[i], i);
    }
  }

  lemma AnsweredAndResumed(x: KState, z: KState, depth: int, t: Thread, i: int)
    requires Ends(x, false, z, depth) && 0 <= i < |x.threads| && (i == x.current ==> depth == -1 || depth == |t.frames|)
    requires var u := x.threads[i];
             && (if i == x.current then u.frames != [] && Popped(u.frames) == t.frames else u.frames == t.frames)
             && u.pendingSignals == t.pendingSignals && u.signalHandler == t.signalHandler && u.stackEnd == t.stackEnd
    ensures Resumed(z).current == x.current && i < |Resumed(z).threads| && SameSignals(t, Resumed(z).threads[i])
  {
    var y := Picked(x, false, z.next);
    assert SameLife(y.threads[i], z.threads[i]);
    assert AnsweredAt(y.threads[i].frames, z.threads[i].frames, if i == y.current then depth else -1);
    if i == x.current {
      assert Popped(z.threads[i].frames) == t.frames;
    } else {
      assert z.threads[i].frames == t.frames;
    }
  }

  // ---- Signals in order

  lemma {:induction false} NextSignalIsLowest(pending: SignalMask, from: nat)
    requires from <= 32
    ensures var n := NextSignal(pending, from);
            if n == 0 then forall b | b in pending :: b < from
            else n - 1 in pending && from <= n - 1 && forall b | b in pending && from <= b :: n - 1 <= b
    decreases 32 - from
  {
    if from == 32 || from in pending {
    } else {
      NextSignalIsLowest(pending, from + 1);
    }
  }

  /** Checking signals takes exactly the lowest pending one. */
  lemma LowestIsTaken(pending: SignalMask)
    requires pending != {}
    ensures var n := NextSignal(pending, 0);
            && n > 0 && n - 1 in pending && (forall b | b in pending :: n - 1 <= b)
            && |WithoutLowest(pending)| == |pending| - 1
  {
    NextSignalIsLowest(pending, 0);
    var b :| b in pending;
    assert 0 <= b;
  }

  /** The frames call the handler once for each signal of the mask, lowest first, all from the same
      place on the stack. */
  ghost predicate CallsInOrder(q: seq<Frame>, pending: SignalMask, handler: int, sp: int) {
    && |q| == |pending|
    && (forall k | 0 <= k < |q| ::
         q[k] == Frame(sp, HANDLER_WRAPPER, q[k].arg0, handler, 0) && q[k].arg0 - 1 in pending)
    && (forall j, k | 0 <= j < k < |q| :: q[j].arg0 < q[k].arg0)
  }

  lemma OneMoreCall(first: Frame, rest: seq<Frame>, pending: SignalMask, handler: int, sp: int)
    requires pending != {} && first == Frame(sp, HANDLER_WRAPPER, NextSignal(pending, 0), handler, 0)
    requires CallsInOrder(rest, WithoutLowest(pending), handler, sp)
    ensures CallsInOrder([first] + rest, pending, handler, sp)
  {
    LowestIsTaken(pending);
    var q, n := [first] + rest, NextSignal(pending, 0);
    forall k | 0 <= k < |q|
      ensures q[k] == Frame(sp, HANDLER_WRAPPER, q[k].arg0, handler, 0) && q[k].arg0 - 1 in pending
      ensures k > 0 ==> n < q[k].arg0
    {
      if k > 0 {
        assert q[k] == rest[k - 1] && rest[k - 1].arg0 - 1 in pending - {n - 1};
      }
    }
    forall j, k | 0 <= j < k < |q|
      ensures q[j].arg0 < q[k].arg0
    {
      if j > 0 {
        assert rest[j - 1].arg0 < rest[k - 1].arg0;
      }
    }
  }

  // ---- Runs

  /** The contexts that thread i is resumed from along the run, schedule by schedule. */
  ghost function SchedulesOf(s: KState, es: seq<Event>, i: int): seq<Frame>
    requires IsRun(s, es)
    decreases |es|
  {
    if es == [] then []
    else (if IsScheduled(s, es[0], i) then [Step(s, es[0]).cpu] else []) + SchedulesOf(Step(s, es[0]), es[1..], i)
  }

  /** do_scheduler runs in the step and chooses thread i. */
  ghost predicate IsScheduled(s: KState, e: Event, i: int)
    requires Allowed(s, e)
  {
    Schedules(s, e) && Step(s, e).exit.None? && Step(s, e).current == i
  }

  /** What the handlers of thread i may do: anything that does not run the scheduler, until they
      return; and what other threads may do meanwhile. */
  ghost predicate IsHandlerStep(s: KState, e: Event, i: int)
    requires Allowed(s, e)
  {
    LeavesSignalsAlone(s, e, i) && (s.current == i && Schedules(s, e) ==> e.ThreadSwitch? && e.frame.pc == HANDLER_END)
  }

  /** For the next `left` schedules of thread i it only runs handlers that do not yield, and nobody
      touches its signals; after the last of these schedules it may do anything. */
  ghost predicate HandlersOnly(s: KState, es: seq<Event>, i: int, left: nat)
    requires IsRun(s, es)
    decreases |es|
  {
    es == [] || left == 0
    || (IsHandlerStep(s, es[0], i)
        && HandlersOnly(Step(s, es[0]), es[1..], i, if IsScheduled(s, es[0], i) then left - 1 else left))
  }

  /** Thread i has `base` to go back to, and these signals to handle before. */
  ghost predicate Draining(s: KState, i: int, base: seq<Frame>, pending: SignalMask, handler: int, stackEnd: int) {
    && 0 <= i < |s.threads|
    && var t := s.threads[i];
       && t.pendingSignals == pending && t.signalHandler == handler && t.stackEnd == stackEnd
       && (if s.current == i then t.frames else WithoutDoneHandler(t.frames)) == base
  }

  function WithoutLowest(pending: SignalMask): SignalMask {
    pending - {NextSignal(pending, 0) - 1}
  }

  /** The contexts a thread is to be resumed from: the handler for the lowest pending signal each time,
      until none is left, and then the base. */
  ghost function Plan(base: seq<Frame>, pending: SignalMask, handler: int, stackEnd: int): seq<Frame>
    requires base != []
    decreases |pending|
  {
    if pending == {} then [base[|base| - 1]]
    else
      LowestIsTaken(pending);
      var first := NextSignal(pending, 0);
      [HandlerFrame(base, stackEnd, first, handler)] + Plan(base, WithoutLowest(pending), handler, stackEnd)
  }

  /** The schedules are as planned, as far as the plan goes. */
  ghost predicate Follows(q: seq<Frame>, plan: seq<Frame>) {
    forall k | 0 <= k < |q| && k < |plan| :: q[k] == plan[k]
  }

  /** Thread i was either not scheduled, or runs the next handler or, with none left, the base. */
  ghost predicate OneSchedule(r: KState, i: int, base: seq<Frame>, pending: SignalMask, handler: int, stackEnd: int)
    requires base != []
  {
    if r.current != i then Draining(r, i, base, pending, handler, stackEnd)
    else if pending == {} then r.cpu == base[|base| - 1]
    else
      && r.cpu == HandlerFrame(base, stackEnd, NextSignal(pending, 0), handler)
      && Draining(r, i, base, WithoutLowest(pending), handler, stackEnd)
  }

  lemma CheckedRuns(t: Thread, r: KState, i: int, base: seq<Frame>, pending: SignalMask, handler: int, stackEnd: int)
    requires RunsChecked(t, r, i) && base != [] && handler != 0
    requires t.pendingSignals == pending && t.signalHandler == handler && t.stackEnd == stackEnd
    requires WithoutDoneHandler(t.frames) == base
    ensures OneSchedule(r, i, base, pending, handler, stackEnd)
  {
    if r.current == i && pending != {} {
      var top := HandlerFrame(base, stackEnd, NextSignal(pending, 0), handler);
      assert CheckSignals(t).frames == base + [top];
      assert Popped(base + [top]) == base;
    }
  }

  lemma SavedDrains(s: KState, e: Event, i: int, base: seq<Frame>, pending: SignalMask, handler: int, stackEnd: int)
    requires Core(s) && Allowed(s, e) && IsEntry(e) && Schedules(s, e) && IsHandlerStep(s, e, i)
    requires base != [] && Draining(s, i, base, pending, handler, stackEnd)
    ensures WithoutDoneHandler(SavedRecord(s, e, i).frames) == base
  {
    if s.current == i {
      assert SavedRecord(s, e, i).frames == base + [e.frame];
      assert Popped(base + [e.frame]) == base;
    }
  }

  lemma StepDrains(s: KState, e: Event, i: int, base: seq<Frame>, pending: SignalMask, handler: int, stackEnd: int)
    requires Core(s) && Allowed(s, e) && Step(s, e).exit.None? && IsHandlerStep(s, e, i)
    requires base != [] && handler != 0 && Draining(s, i, base, pending, handler, stackEnd)
    ensures if Schedules(s, e) then OneSchedule(Step(s, e), i, base, pending, handler, stackEnd)
            else Draining(Step(s, e), i, base, pending, handler, stackEnd)
  {
    if Schedules(s, e) {
      ScheduleChecks(s, e, i);
      SavedDrains(s, e, i, base, pending, handler, stackEnd);
      CheckedRuns(SavedRecord(s, e, i), Step(s, e), i, base, pending, handler, stackEnd);
    } else {
      NoScheduleKeeps(s, e, i);
    }
  }

  /** Thread i has a handler, and `base` to go back to. */
  ghost predicate Handles(s: KState, i: int, base: seq<Frame>) {
    && base != [] && 0 <= i < |s.threads| && s.threads[i].signalHandler != 0
    && (if s.current == i then s.threads[i].frames else WithoutDoneHandler(s.threads[i].frames)) == base
  }

  ghost function PlanFor(s: KState, i: int, base: seq<Frame>): seq<Frame>
    requires base != [] && 0 <= i < |s.threads|
  {
    var t := s.threads[i];
    Plan(base, t.pendingSignals, t.signalHandler, t.stackEnd)
  }

  /** One step: thread i is not scheduled and its plan stays, or it is resumed from the first context
      of its plan. */
  lemma OneStepPlans(s: KState, e: Event, i: int, base: seq<Frame>)
    requires Core(s) && Allowed(s, e) && Step(s, e).exit.None? && IsHandlerStep(s, e, i) && Handles(s, i, base)
    ensures var r, plan := Step(s, e), PlanFor(s, i, base);
            && plan != []
            && (!IsScheduled(s, e, i) ==> Handles(r, i, base) && PlanFor(r, i, base) == plan)
            && (IsScheduled(s, e, i) ==> r.cpu == plan[0])
            && (IsScheduled(s, e, i) && |plan| > 1 ==> Handles(r, i, base) && PlanFor(r, i, base) == plan[1..])
  {
    var t := s.threads[i];
    StepDrains(s, e, i, base, t.pendingSignals, t.signalHandler, t.stackEnd);
    PlanStarts(base, t.pendingSignals, t.signalHandler, t.stackEnd);
  }

  /** Each schedule of thread i along the run resumes the next context of the plan, until it ends. */
  ghost predicate Obeys(s: KState, es: seq<Event>, i: int, plan: seq<Frame>)
    requires IsRun(s, es)
    decreases |es|
  {
    es == [] || plan == []
    || if !IsScheduled(s, es[0], i) then Obeys(Step(s, es[0]), es[1..], i, plan)
       else Step(s, es[0]).cpu == plan[0] && Obeys(Step(s, es[0]), es[1..], i, plan[1..])
  }

  lemma {:induction false} ObeyingFollows(s: KState, es: seq<Event>, i: int, plan: seq<Frame>)
    requires IsRun(s, es) && Obeys(s, es, i, plan)
    ensures Follows(SchedulesOf(s, es, i), plan)
    decreases |es|
  {
    if es == [] || plan == [] {
    } else if !IsScheduled(s, es[0], i) {
      NotScheduled(s, es, i);
      ObeyingFollows(Step(s, es[0]), es[1..], i, plan);
    } else {
      OnceScheduled(s, es, i);
      ObeyingFollows(Step(s, es[0]), es[1..], i, plan[1..]);
      FollowsOn(Step(s, es[0]).cpu, SchedulesOf(Step(s, es[0]), es[1..], i), plan);
    }
  }

  /** Whatever other threads do meanwhile, the schedules of a thread with a handler and a pending
      mask run the handler for the lowest signal each time, and then its own code. */
  lemma {:induction false} EveryRunObeysPlan(s: KState, es: seq<Event>, i: int, base: seq<Frame>)
    requires Core(s) && IsRun(s, es) && Run(s, es).exit.None? && Handles(s, i, base)
    requires HandlersOnly(s, es, i, |PlanFor(s, i, base)|)
    ensures Obeys(s, es, i, PlanFor(s, i, base))
    decreases |es|
  {
    if es == [] {
    } else {
      var plan := PlanFor(s, i, base);
      RunGoesOn(s, es);
      StepKeepsCore(s, es[0]);
      OneStepPlans(s, es[0], i, base);
      HandlersGoOn(s, es, i, |plan|);
      if !IsScheduled(s, es[0], i) || |plan| > 1 {
        EveryRunObeysPlan(Step(s, es[0]), es[1..], i, base);
      }
    }
  }

  lemma PlanStarts(base: seq<Frame>, pending: SignalMask, handler: int, stackEnd: int)
    requires base != []
    ensures var plan, first := Plan(base, pending, handler, stackEnd), NextSignal(pending, 0);
            && plan != []
            && (pending == {} ==> plan == [base[|base| - 1]])
            && (pending != {} ==>
                  plan[0] == HandlerFrame(base, stackEnd, first, handler)
                  && plan[1..] == Plan(base, WithoutLowest(pending), handler, stackEnd))
  {
    if pending != {} {
      LowestIsTaken(pending);
    }
  }

  lemma FollowsOn(first: Frame, q: seq<Frame>, plan: seq<Frame>)
    requires plan != [] && first == plan[0] && Follows(q, plan[1..])
    ensures Follows([first] + q, plan)
  {
    forall k | 0 < k <= |q| && k < |plan|
      ensures ([first] + q)[k] == plan[k]
    {
      assert ([first] + q)[k] == q[k - 1] && plan[1..][k - 1] == plan[k];
    }
  }

  lemma HandlersGoOn(s: KState, es: seq<Event>, i: int, left: nat)
    requires IsRun(s, es) && es != [] && left > 0 && HandlersOnly(s, es, i, left)
    ensures IsHandlerStep(s, es[0], i)
    ensures HandlersOnly(Step(s, es[0]), es[1..], i, if IsScheduled(s, es[0], i) then left - 1 else left)
  {
  }

  lemma NotScheduled(s: KState, es: seq<Event>, i: int)
    requires IsRun(s, es) && es != [] && !IsScheduled(s, es[0], i)
    ensures SchedulesOf(s, es, i) == SchedulesOf(Step(s, es[0]), es[1..], i)
  {
  }

  lemma OnceScheduled(s: KState, es: seq<Event>, i: int)
    requires IsRun(s, es) && es != [] && IsScheduled(s, es[0], i)
    ensures SchedulesOf(s, es, i) == [Step(s, es[0]).cpu] + SchedulesOf(Step(s, es[0]), es[1..], i)
  {
  }

  /** The plan calls the handler once for each signal in ascending order, and then goes back. */
  lemma {:induction false} PlanIsInOrder(base: seq<Frame>, pending: SignalMask, handler: int, stackEnd: int)
    requires base != []
    ensures var plan := Plan(base, pending, handler, stackEnd);
            && |plan| == |pending| + 1 && plan[|pending|] == base[|base| - 1]
            && CallsInOrder(plan[..|pending|], pending, handler, StackPtr(base, stackEnd) - CONTEXT_SIZE)
    decreases |pending|
  {
    PlanStarts(base, pending, handler, stackEnd);
    if pending == {} {
    } else {
      var plan, rest := Plan(base, pending, handler, stackEnd), WithoutLowest(pending);
      LowestIsTaken(pending);
      PlanIsInOrder(base, rest, handler, stackEnd);
      OneMoreCall(plan[0], plan[1..][..|rest|], pending, handler, StackPtr(base, stackEnd) - CONTEXT_SIZE);
      assert [plan[0]] + plan[1..][..|rest|] == plan[..|pending|];
    }
  }

  /** In every run, a pending mask is drained in exactly as many schedules as it has bits, one
      handler call for each signal in ascending order; the next schedule resumes the thread's own
      context. */
  lemma MaskIsDrainedInEveryRun(s: KState, es: seq<Event>, i: int, base: seq<Frame>, pending: SignalMask, handler: int,
                                stackEnd: int)
    requires Core(s) && IsRun(s, es) && Run(s, es).exit.None?
    requires base != [] && handler != 0 && Draining(s, i, base, pending, handler, stackEnd)
    requires HandlersOnly(s, es, i, |pending| + 1) && |SchedulesOf(s, es, i)| > |pending|
    ensures var q := SchedulesOf(s, es, i);
            && CallsInOrder(q[..|pending|], pending, handler, StackPtr(base, stackEnd) - CONTEXT_SIZE)
            && q[|pending|] == base[|base| - 1]
  {
    var q, plan := SchedulesOf(s, es, i), Plan(base, pending, handler, stackEnd);
    PlanIsInOrder(base, pending, handler, stackEnd);
    EveryRunObeysPlan(s, es, i, base);
    ObeyingFollows(s, es, i, plan);
    SameFront(q, plan, |pending|);
  }

  lemma SameFront(q: seq<Frame>, plan: seq<Frame>, n: nat)
    requires Follows(q, plan) && n < |q| && n < |plan|
    ensures q[..n] == plan[..n] && q[n] == plan[n]
  {
  }
}
