/** The first steps after boot: the setup thread loads a program, which then runs. */
module BootRuns {
  import opened Basics
  import opened Threads
  import opened Scheduler
  import opened Lifecycle
  import opened Rings
  import opened Steps
  import opened CoreInvariant
  import opened Effects
  import opened Choices
  import opened StepParts
  import opened Fairness

  function UserFrame(s: KState): Frame
    requires s.WF() && s.current != NULL
  {
    Frame(StackLimit(s.Current()) - CONTEXT_SIZE, 0, 0, 0, 0)
  }

  const LOAD_FILE: Call := AddThread(None, None, 0, "", Some(ThreadFlags(true, 0)))

  function Calls(s: KState, call: Call): Event
    requires s.WF() && s.current != NULL
  {
    Syscall(UserFrame(s), call, true)
  }

  // ---- Steps that return to their caller

  /** A call that neither runs the scheduler nor ends the kernel has its effect and returns. */
  lemma CallReturns(s: KState, call: Call)
    requires Core(s) && Allowed(s, Calls(s, call)) && CallExit(s, call).None? && !RunsScheduler(s, call)
    ensures var e := Calls(s, call); var r := Step(s, e);
            && r.exit.None? && r.current == s.current && Core(r)
            && OnlyTouched(CallEffect(Entered(s, e), call), r)
  {
    var e := Calls(s, call);
    StepEndsKernelIff(s, e);
    StepKeepsCore(s, e);
    StepTouches(s, e);
    ReturnsToCaller(s, e);
  }

  lemma ReturnsToCaller(s: KState, e: Event)
    requires Core(s) && Allowed(s, e) && IsEntry(e) && Step(s, e).exit.None? && !Schedules(s, e)
    ensures Step(s, e).current == s.current
  {
    EntryParts(s, e);
  }

  lemma RunFrom(s: KState, e: Event, es: seq<Event>)
    requires Allowed(s, e) && IsRun(Step(s, e), es)
    ensures IsRun(s, [e] + es) && Run(s, [e] + es) == Run(Step(s, e), es)
  {
    assert ([e] + es)[1..] == es;
  }

  // ---- From boot

  /** The setup thread runs, and a loader on page 0 waits in slot 1; slot 2 and page 1 are free. */
  ghost predicate LoaderWaits(s: KState) {
    && Core(s) && s.current == 0 && |s.threads| >= 3 && |s.pages| >= 2
    && s.threads[0].child == s.threads[0].parent == INVALID_THREAD
    && CanSchedule(s.threads, 1) && s.threads[1].codeBackingPage == 0 && s.threads[1].permissions == TPERM_ALL
    && s.threads[1].child == s.threads[1].parent == INVALID_THREAD
    && !IsReusable(s.threads[0]) && !IsReusable(s.threads[1]) && IsReusable(s.threads[2])
    && s.pages[0].refCount == 1 && s.pages[1].refCount == 0
  }

  /** The kernel has booted its setup thread, and all else is free. */
  ghost predicate SetupRuns(s: KState) {
    && Core(s) && s.current == 0 && |s.threads| >= 3 && |s.pages| >= 2
    && s.threads[0].child == s.threads[0].parent == INVALID_THREAD
    && s.threads[0].codeBackingPage == INVALID_PAGE && s.threads[0].permissions == TPERM_ALL
    && !IsReusable(s.threads[0]) && IsReusable(s.threads[1]) && IsReusable(s.threads[2])
    && s.pages[0].refCount == 0 && s.pages[1].refCount == 0
  }

  lemma BootRunsSetup(s: KState, setup: int)
    requires IsCold(s) && |s.threads| >= 3 && |s.pages| >= 2
    ensures SetupRuns(Booted(s, BuiltIn(setup)))
  {
    BootEstablishesCore(s, BuiltIn(setup));
    FirstThreadIs(s, BuiltIn(setup));
    FirstThreadIsFound(s, BuiltIn(setup));
  }

  lemma SetupLoads(s: KState)
    requires SetupRuns(s)
    ensures Dispatch(s, LOAD_FILE).0 == CallEffect(s, LOAD_FILE) == AddThreadFromFile(s, "", 0).0
    ensures var d := AddThreadFromFile(s, "", 0).0;
            && d.next == NULL && d.exit.None? && d.current == 0 && |d.threads| == |s.threads| && |d.pages| == |s.pages|
            && d.threads[0] == s.threads[0] && d.threads[2] == s.threads[2]
            && d.threads[1].id == 1 && d.threads[1].state == Init && d.threads[1].codeBackingPage == 0
            && d.threads[1].permissions == TPERM_ALL && d.threads[1].child == d.threads[1].parent == INVALID_THREAD
            && d.pages[0].refCount == 1 && d.pages[1].refCount == 0
  {
    assert FirstReusable(s.threads, 0) == FirstReusable(s.threads, 1) == 1;
    assert FindFreeBackingPage(s.pages, 0) == 0;
    AllPermissions();
    AddFromFileOnlyAdds(s, "", 0);
  }

  lemma SetupLoadStep(s: KState)
    requires SetupRuns(s)
    ensures Allowed(s, Calls(s, LOAD_FILE))
    ensures var r := Step(s, Calls(s, LOAD_FILE)); r.exit.None? && LoaderWaits(r)
  {
    var e := Calls(s, LOAD_FILE);
    EnteredTouches(s, e);
    EnteredKeepsCore(s, e);
    SetupStaysSetup(s, Entered(s, e));
    SetupLoads(Entered(s, e));
    CallReturns(s, LOAD_FILE);
    LoaderWaitsNow(Entered(s, e), AddThreadFromFile(Entered(s, e), "", 0).0, Step(s, e));
  }

  lemma SetupStaysSetup(s: KState, x: KState)
    requires SetupRuns(s) && OnlyTouched(s, x) && Core(x) && x.current == 0
    ensures SetupRuns(x)
  {
  }

  lemma LoaderWaitsNow(s: KState, d: KState, r: KState)
    requires SetupRuns(s) && OnlyTouched(d, r) && Core(r) && r.current == 0 && |d.threads| == |s.threads|
    requires |d.pages| == |s.pages|
    requires d.threads[0] == s.threads[0] && d.threads[2] == s.threads[2]
    requires d.threads[1].id == 1 && d.threads[1].state == Init && d.threads[1].codeBackingPage == 0
    requires d.threads[1].permissions == TPERM_ALL && d.threads[1].child == d.threads[1].parent == INVALID_THREAD
    requires d.pages[0].refCount == 1 && d.pages[1].refCount == 0
    ensures LoaderWaits(r)
  {
  }

  lemma LoaderStarts(s: KState)
    requires LoaderWaits(s)
    ensures Allowed(s, Calls(s, YIELD_TO_ANY))
    ensures var r := Step(s, Calls(s, YIELD_TO_ANY)); r.exit.None? && LoaderRuns(r)
  {
    var e := Calls(s, YIELD_TO_ANY);
    YieldsInTurn(s);
    EnteredTouches(s, e);
    LoaderIsNext(s, Entered(s, e));
    TouchedTwice(s, Entered(s, e), Step(s, e));
    LoaderRunsNow(s, Step(s, e));
  }

  lemma YieldsInTurn(s: KState)
    requires Core(s)
    ensures var e := Calls(s, YIELD_TO_ANY); var x, r := Entered(s, e), Step(s, e);
            && r.exit.None? && Core(r) && OnlyTouched(x, r) && x.current == s.current
            && r.current == ChooseNextThread(x.threads, s.current)
            && (forall i | 0 <= i < |s.threads| :: CanSchedule(s.threads, i) ==> CanSchedule(x.threads, i))
  {
    var e := Calls(s, YIELD_TO_ANY);
    YieldGoesOn(s);
    StepKeepsCore(s, e);
    StepTouches(s, e);
    StepPicks(s, e);
    YieldHasNoEffect(s);
  }

  lemma YieldHasNoEffect(s: KState)
    requires Core(s)
    ensures var e := Calls(s, YIELD_TO_ANY); var x := Entered(s, e);
            && Effect(x, e) == x && x.current == s.current && |x.threads| == |s.threads|
            && forall i | 0 <= i < |s.threads| :: CanSchedule(s.threads, i) ==> CanSchedule(x.threads, i)
  {
  }

  lemma LoaderIsNext(s: KState, x: KState)
    requires LoaderWaits(s) && OnlyTouched(s, x) && x.WF() && x.current == 0
    requires forall i | 0 <= i < |s.threads| :: CanSchedule(s.threads, i) ==> CanSchedule(x.threads, i)
    ensures ChooseNextThread(x.threads, 0) == 1
  {
    assert !CanSchedule(x.threads, INVALID_THREAD);
    assert SearchStart(x.threads, 0) == 1;
    assert 1 % |x.threads| == 1;
  }

  /** The loader runs from page 0; the setup thread can run, and slot 2 and page 1 are free. */
  ghost predicate LoaderRuns(s: KState) {
    && Core(s) && s.current == 1 && |s.threads| >= 3 && |s.pages| >= 2 && CanSchedule(s.threads, 0)
    && s.threads[1].child == s.threads[1].parent == INVALID_THREAD
    && s.threads[1].codeBackingPage == 0 && s.threads[1].permissions == TPERM_ALL
    && !IsReusable(s.threads[0]) && !IsReusable(s.threads[1]) && IsReusable(s.threads[2])
    && s.pages[0].refCount == 1 && s.pages[1].refCount == 0
  }

  lemma LoaderRunsNow(s: KState, r: KState)
    requires LoaderWaits(s) && OnlyTouched(s, r) && Core(r) && r.current == 1
    ensures LoaderRuns(r)
  {
    TouchedKeepsSchedulable(s, r);
    assert CanSchedule(s.threads, 0);
  }

  /** A yield by a thread that could run on never ends the kernel. */
  lemma YieldGoesOn(s: KState)
    requires Core(s)
    ensures Step(s, Calls(s, YIELD_TO_ANY)).exit.None?
  {
    StepEndsKernelIff(s, Calls(s, YIELD_TO_ANY));
  }

  lemma SetupRunsLoader(b: KState) returns (es: seq<Event>)
    requires SetupRuns(b)
    ensures IsRun(b, es) && LoaderRuns(Run(b, es))
  {
    SetupLoadStep(b);
    var r := Step(b, Calls(b, LOAD_FILE));
    LoaderStarts(r);
    RunFrom(r, Calls(r, YIELD_TO_ANY), []);
    es := [Calls(r, YIELD_TO_ANY)] + [];
    RunFrom(b, Calls(b, LOAD_FILE), es);
    es := [Calls(b, LOAD_FILE)] + es;
  }

  /** From a cold kernel the setup thread can load a program and let it run. */
  lemma BootRunsLoader(s: KState, setup: int) returns (es: seq<Event>)
    requires IsCold(s) && |s.threads| >= 3 && |s.pages| >= 2
    ensures var b := Booted(s, BuiltIn(setup)); IsRun(b, es) && Core(b) && LoaderRuns(Run(b, es))
  {
    BootRunsSetup(s, setup);
    es := SetupRunsLoader(Booted(s, BuiltIn(setup)));
  }

  lemma RunTail(s: KState, es: seq<Event>)
    requires IsRun(s, es) && es != []
    ensures Allowed(s, es[0]) && IsRun(Step(s, es[0]), es[1..]) && Run(s, es) == Run(Step(s, es[0]), es[1..])
  {
  }

  lemma FirstApart(es: seq<Event>, more: seq<Event>)
    requires es != []
    ensures es + more == [es[0]] + (es[1..] + more)
  {
  }

  lemma {:induction false} RunOn(s: KState, es: seq<Event>, more: seq<Event>)
    requires IsRun(s, es) && IsRun(Run(s, es), more)
    ensures IsRun(s, es + more) && Run(s, es + more) == Run(Run(s, es), more)
    decreases |es|
  {
    if es == [] {
      assert es + more == more;
    } else {
      RunTail(s, es);
      RunOn(Step(s, es[0]), es[1..], more);
      RunFrom(s, es[0], es[1..] + more);
      FirstApart(es, more);
    }
  }
}
