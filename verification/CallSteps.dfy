/** A call that does not run the scheduler, from the entry to the return to its caller. */
module CallSteps {
  import opened Basics
  import opened Threads
  import opened Scheduler
  import opened Lifecycle
  import opened Rings
  import opened Steps
  import opened CoreInvariant
  import opened Effects
  import opened Choices
  import opened StepParts

  /** The call is handled and the kernel goes on. */
  ghost predicate IsHandled(s: KState, f: Frame, call: Call) {
    && Core(s) && Allowed(s, Syscall(f, call, true)) && Step(s, Syscall(f, call, true)).exit.None?
  }

  /** The record t of the caller may be answered, its errno restored and its context popped. */
  predicate SameButReturned(t: Thread, u: Thread) {
    u == t.(frames := u.frames, errNo := u.errNo)
  }

  /** After the call the kernel is as its effect x left it, but for what the return of the caller changes. */
  ghost predicate ReturnsFrom(x: KState, r: KState) {
    && r == x.(threads := r.threads, current := r.current, next := r.next, info := r.info, cpu := r.cpu)
    && r.current == x.current && 0 <= x.current < |x.threads| == |r.threads|
    && (forall k | 0 <= k < |x.threads| && k != x.current :: r.threads[k] == x.threads[k])
    && SameButReturned(x.threads[x.current], r.threads[x.current])
  }

  lemma AnswerReturns(x: KState, depth: int, result: int)
    requires x.WF() && x.current != NULL
    ensures var r := WithResult(x, depth, result);
            && r == x.(threads := r.threads) && |r.threads| == |x.threads|
            && (forall k | 0 <= k < |x.threads| && k != x.current :: r.threads[k] == x.threads[k])
            && SameButReturned(x.threads[x.current], r.threads[x.current])
  {
  }

  lemma FinishReturns(x: KState, before: KState, call: Call, result: int)
    requires x.WF() && x.current != NULL && x.next == NULL && before.WF() && before.current != NULL
    ensures ReturnsFrom(x, Resumed(FinishSyscall(x, before, call, result)))
  {
    AnswerReturns(x, |before.Current().frames| - 1, result);
  }

  lemma StayingDispatch(x: KState, call: Call)
    requires Core(x) && CallIsUsable(x, call) && Dispatch(x, call).0.exit.None? && !RunsScheduler(x, call)
    ensures Dispatch(x, call).0 == CallEffect(x, call) && CallEffect(x, call).next == NULL
    ensures CallEffect(x, call).current == x.current
  {
    DispatchSwitches(x, call);
    CallDecides(x, call);
  }

  lemma QuietStays(s: KState, call: Call)
    requires s.WF() && s.current != NULL && StaysOut(call)
    ensures !RunsScheduler(s, call)
  {
  }

  /** Only the return of the caller comes after the call's effect. */
  lemma StayingStep(s: KState, f: Frame, call: Call)
    requires IsHandled(s, f, call) && !RunsScheduler(s, call)
    ensures Core(CallEntry(s, f)) && CallIsUsable(CallEntry(s, f), call)
    ensures ReturnsFrom(CallEffect(CallEntry(s, f), call), Step(s, Syscall(f, call, true)))
    ensures CallEffect(CallEntry(s, f), call).current == s.current
  {
    var x := CallEntry(s, f);
    CallStepIs(s, f, call);
    CallEntryTouches(s, f);
    EntryDecidesSame(s, x, call);
    StayingDispatch(x, call);
    FinishReturns(CallEffect(x, call), Saved(s, f), call, Dispatch(x, call).1);
    ReturnIs(Handled(x, Saved(s, f), call));
  }

  /** On entry only the caller's stack grows, and errno is cleared if failed calls are logged. */
  lemma EntryIs(s: KState, f: Frame)
    requires s.WF() && s.current != NULL
    ensures var x := CallEntry(s, f); var t := s.Current();
            && x == s.(threads := s.threads[s.current := t.(frames := t.frames + [f])], info := x.info)
            && x.info == s.info.(errNo := x.info.errNo)
  {
  }
}
