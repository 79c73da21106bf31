/** Bounded waiting: a thread that stays schedulable is soon the one that runs. */
module Fairness {
  import opened Basics
  import opened Threads
  import opened Scheduler
  import opened Lifecycle
  import opened Rings
  import opened Steps
  import opened CoreInvariant
  import opened Effects
  import opened Choices

  /** How far slot t lies ahead of slot c, going round the array. */
  function Ahead(c: int, t: int, n: nat): int
    requires 0 <= c < n && 0 <= t < n
  {
    if t > c then t - c else t - c + n
  }

  // ---- The choice

  /** Neither a child nor a parent draws the search away from the next slot. */
  predicate HasNoKin(ts: seq<Thread>, current: int) {
    0 <= current < |ts| && !CanSchedule(ts, ts[current].child) && !CanSchedule(ts, ts[current].parent)
  }

  /** The search never passes over a schedulable slot. */
  lemma ChoiceGetsCloser(ts: seq<Thread>, current: int, t: int)
    requires HasNoKin(ts, current) && 0 <= t < |ts| && t != current && CanSchedule(ts, t)
    ensures var r := ChooseNextThread(ts, current);
            0 <= r < |ts| && r != current && (r == t || Ahead(r, t, |ts|) < Ahead(current, t, |ts|))
  {
    var n, start := |ts|, current + 1;
    FirstSchedulableIsFirst(ts, start, n);
    var at := current + Ahead(current, t, n);
    WrapOnce(at, n);
    assert CanSchedule(ts, at % n);
    var r := FirstSchedulable(ts, start, n);
    var k :| start <= k < start + n && r == k % n && IsFirst(ts, start, k);
    assert k <= at;
    WrapOnce(k, n);
  }

  // ---- Who runs after a step

  /** The event calls the scheduler for the next thread in turn, or none at all. */
  predicate TakesTurns(e: Event) {
    !(e.Syscall? && e.stackOk && e.call.Yield? && e.call.kind != YIELD_ANY)
  }

  /** The next thread in turn, from the state the scheduler sees. */
  ghost function NextInTurn(s: KState, e: Event): int
    requires Core(s) && Allowed(s, e)
  {
    var x := Effect(Entered(s, e), e);
    if x.current == s.current then ChooseNextThread(x.threads, s.current) else NULL
  }

  /** Once a call has settled, the thread it chose is the one that is resumed. */
  lemma ChosenIsResumed(s: KState, before: KState, call: Call, result: int)
    requires Settled(s) && s.current != NULL && before.WF() && before.current != NULL
    ensures LoadNextThread(FinishSyscall(s, before, call, result)).current == Chosen(s)
  {
  }

  lemma CallPicks(s: KState, f: Frame, call: Call)
    requires Core(s) && Allowed(s, Syscall(f, call, true)) && Step(s, Syscall(f, call, true)).exit.None?
    requires TakesTurns(Syscall(f, call, true))
    ensures var e := Syscall(f, call, true); var r := Step(s, e);
            r.current == NextInTurn(s, e) || (r.current == s.current && !call.Yield?)
  {
    CallStepIs(s, f, call);
    EnteredCallPicks(CallEntry(s, f), Saved(s, f), call);
  }

  lemma EnteredCallPicks(s: KState, before: KState, call: Call)
    requires Core(s) && CallIsUsable(s, call) && TakesTurns(Syscall(s.cpu, call, true))
    requires before.WF() && before.current != NULL && Handled(s, before, call).exit.None?
    ensures var x := CallEffect(s, call);
            var next := LoadNextThread(Handled(s, before, call)).current;
            && x.current == s.current
            && (next == ChooseNextThread(x.threads, s.current) || (next == s.current && !call.Yield?))
  {
    CallDecides(s, call);
    DispatchSettles(s, call);
    var done := Dispatch(s, call);
    ChosenIsResumed(done.0, before, call, done.1);
  }

  lemma YieldAnyPicks(s: KState, before: KState)
    requires s.WF() && s.next == NULL && s.current != NULL && s.exit.None?
    requires IdsMatch(s.threads) && OnlyRuns(s.threads, s.current)
    requires before.WF() && before.current != NULL && Handled(s, before, YIELD_TO_ANY).exit.None?
    ensures LoadNextThread(Handled(s, before, YIELD_TO_ANY)).current == ChooseNextThread(s.threads, s.current)
  {
    SchedulerDecides(s);
    YieldSettles(s, INVALID_THREAD, YIELD_ANY);
    var done := YieldCall(s, INVALID_THREAD, YIELD_ANY);
    ChosenIsResumed(done.0, before, YIELD_TO_ANY, done.1);
  }

  lemma BadStackPicks(s: KState, f: Frame, call: Call)
    requires Core(s) && Allowed(s, Syscall(f, call, false)) && Step(s, Syscall(f, call, false)).exit.None?
    ensures var e := Syscall(f, call, false); Step(s, e).current == NextInTurn(s, e)
  {
    BadStackStepIs(s, f, call);
    YieldAnyPicks(Hidden(s, f), Saved(s, f));
  }

  lemma ExitPicks(s: KState, f: Frame)
    requires Core(s) && Allowed(s, ThreadExit(f)) && Step(s, ThreadExit(f)).exit.None?
    ensures Step(s, ThreadExit(f)).current == NextInTurn(s, ThreadExit(f))
  {
    ExitStepIs(s, f);
    EndedIs(s, f);
    LoadNextPicks(Ended(s, f));
  }

  lemma LoadNextPicks(s: KState)
    requires s.WF() && s.next == NULL && s.current != NULL && s.exit.None? && IdsMatch(s.threads)
    requires LoadNextThread(s).exit.None?
    ensures LoadNextThread(s).current == ChooseNextThread(s.threads, s.current)
  {
    SchedulerDecides(s);
  }

  /** The event always gives the processor away, if another thread can run. */
  predicate GivesWay(e: Event) {
    e.ThreadSwitch? || e.TimerTick? || (e.Syscall? && e.stackOk && e.call.Yield?)
  }

  lemma StepPicks(s: KState, e: Event)
    requires Core(s) && Allowed(s, e) && Step(s, e).exit.None? && TakesTurns(e)
    ensures Step(s, e).current == NextInTurn(s, e) || (Step(s, e).current == s.current && !GivesWay(e))
  {
    if e.Syscall? && e.stackOk {
      CallPicks(s, e.frame, e.call);
    } else if e.Syscall? {
      BadStackPicks(s, e.frame, e.call);
    } else if e.ThreadExit? {
      ExitPicks(s, e.frame);
    } else {
      OtherEventPicks(s, e);
    }
  }

  lemma OtherEventPicks(s: KState, e: Event)
    requires Core(s) && Allowed(s, e) && Step(s, e).exit.None? && !e.Syscall? && !e.ThreadExit?
    ensures Step(s, e).current == NextInTurn(s, e) || (Step(s, e).current == s.current && !GivesWay(e))
  {
    if e.ThreadSwitch? || e.TimerTick? {
      LoadNextPicks(Saved(s, e.frame));
    }
  }

  // ---- One step and whole runs

  /** In the state the scheduler sees, thread t can run and the running thread has no kin to yield to. */
  ghost predicate KeepsTurn(s: KState, e: Event, t: int)
    requires Core(s) && Allowed(s, e)
  {
    var x := Effect(Entered(s, e), e);
    TakesTurns(e) && x.current == s.current && HasNoKin(x.threads, s.current) && CanSchedule(x.threads, t)
  }

  /** A step either keeps the processor with its thread, or brings t's turn strictly closer. */
  lemma StepGetsCloser(s: KState, e: Event, t: int)
    requires Core(s) && Allowed(s, e) && Step(s, e).exit.None? && KeepsTurn(s, e, t)
    requires 0 <= t < |s.threads| && t != s.current
    ensures var c := Step(s, e).current;
            && |Step(s, e).threads| == |s.threads| && 0 <= c < |s.threads|
            && (c == t || Ahead(c, t, |s.threads|) <= Ahead(s.current, t, |s.threads|))
            && (c != s.current && c != t ==> Ahead(c, t, |s.threads|) < Ahead(s.current, t, |s.threads|))
            && (GivesWay(e) ==> c != s.current)
  {
    StepPicks(s, e);
    StepKeepsThreadCount(s, e);
    NextInTurnIsCloser(s, e, t);
  }

  lemma NextInTurnIsCloser(s: KState, e: Event, t: int)
    requires Core(s) && Allowed(s, e) && Step(s, e).exit.None? && KeepsTurn(s, e, t)
    requires 0 <= t < |s.threads| && t != s.current
    ensures var c := NextInTurn(s, e);
            && 0 <= c < |s.threads| && c != s.current
            && (c == t || Ahead(c, t, |s.threads|) < Ahead(s.current, t, |s.threads|))
  {
    var entered := Entered(s, e);
    EnteredTouches(s, e);
    EnteredKeepsCore(s, e);
    EffectKeepsThreadCount(entered, e);
    ChoiceGetsCloser(Effect(entered, e).threads, s.current, t);
  }

  /** Thread t keeps its turn along the run and is never the one that runs. */
  ghost predicate WaitsInTurn(s: KState, es: seq<Event>, t: int)
    requires Core(s) && IsRun(s, es)
    decreases |es|
  {
    && t != s.current
    && (es == []
        || (KeepsTurn(s, es[0], t)
            && (Step(s, es[0]).exit.None? ==> (StepKeepsCore(s, es[0]); WaitsInTurn(Step(s, es[0]), es[1..], t)))))
  }

  /** How often the processor changes hands. */
  ghost function Switches(s: KState, es: seq<Event>): nat
    requires IsRun(s, es)
    decreases |es|
  {
    if es == [] then 0
    else (if Step(s, es[0]).current != s.current then 1 else 0) + Switches(Step(s, es[0]), es[1..])
  }

  /** While t waits in turn, the processor changes hands fewer times than t is ahead: so within
      MAX_THREADS - 1 switches a thread that stays schedulable runs, whatever else goes on. */
  lemma {:induction false} WaitingIsBounded(s: KState, es: seq<Event>, t: int)
    requires Core(s) && IsRun(s, es) && Run(s, es).exit.None? && 0 <= t < |s.threads| && WaitsInTurn(s, es, t)
    ensures Switches(s, es) < Ahead(s.current, t, |s.threads|) <= |s.threads| - 1
    decreases |es|
  {
    if es == [] {
    } else {
      var r := Step(s, es[0]);
      RunGoesOn(s, es);
      StepKeepsCore(s, es[0]);
      StepGetsCloser(s, es[0], t);
      WaitingIsBounded(r, es[1..], t);
    }
  }
}
