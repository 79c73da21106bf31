/**
 Runs from boot that break a promise where its condition fails: an errno that is lost while failed
 calls are logged, a page that loses its unsaved writes, and an image that is lost while it is loaded.
 */
module Witnesses {
  import opened Basics
  import opened Threads
  import opened Scheduler
  import opened Lifecycle
  import opened Rings
  import opened Steps
  import opened CoreInvariant
  import opened Effects
  import opened Choices
  import opened StepParts
  import opened Fairness
  import opened BootRuns
  import opened PageCache
  import opened ErrNo

  const ADD_THREAD: Call := AddThread(None, None, 0, "", Some(ThreadFlags(false, 0)))
  const LOG_ERRNO: Call := SetKernelConfig(KCFG_LOG_FAILED_ERRNO, 0)

  // ---- An errno that is lost

  /** The setup thread runs and may configure the kernel, and a thread in slot 1 can run. */
  ghost predicate TwoCanRun(s: KState) {
    && Core(s) && s.current == 0 && |s.threads| >= 2 && HasNoKin(s.threads, 0) && CanSchedule(s.threads, 1)
    && s.threads[0].permissions == TPERM_ALL
  }

  lemma AddedThreadCanRun(s: KState)
    requires SetupRuns(s)
    ensures var x := CallEffect(s, ADD_THREAD);
            && |x.threads| == |s.threads| && x.threads[0] == s.threads[0] && CanSchedule(x.threads, 1)
            && forall i :: CanSchedule(x.threads, i) ==> i == 1 || CanSchedule(s.threads, i)
  {
    AddCallOnlyAdds(s, ADD_THREAD);
    assert FirstReusable(s.threads, 0) == FirstReusable(s.threads, 1) == 1;
    AllPermissions();
  }

  lemma AddStep(s: KState)
    requires SetupRuns(s)
    ensures Allowed(s, Calls(s, ADD_THREAD))
    ensures var r := Step(s, Calls(s, ADD_THREAD)); r.exit.None? && TwoCanRun(r)
  {
    var e := Calls(s, ADD_THREAD);
    EnteredTouches(s, e);
    EnteredKeepsCore(s, e);
    SetupStaysSetup(s, Entered(s, e));
    AddedThreadCanRun(Entered(s, e));
    CallReturns(s, ADD_THREAD);
    TwoCanRunNow(CallEffect(Entered(s, e), ADD_THREAD), Step(s, e));
  }

  lemma TwoCanRunNow(x: KState, r: KState)
    requires OnlyTouched(x, r) && Core(r) && r.current == 0 && |x.threads| >= 2 && CanSchedule(x.threads, 1)
    requires x.threads[0].child == x.threads[0].parent == INVALID_THREAD && x.threads[0].permissions == TPERM_ALL
    ensures TwoCanRun(r)
  {
    TouchedKeepsSchedulable(x, r);
  }

  lemma LoggingBit(config: bv32)
    ensures ((config | KCFG_LOG_FAILED_ERRNO) & !(0 as bv32)) & KCFG_LOG_FAILED_ERRNO != 0
  {
  }

  lemma ConfigureEffect(s: KState)
    requires TwoCanRun(s)
    ensures var x := CallEffect(s, LOG_ERRNO); x.threads == s.threads && LogsErrNo(x)
  {
    LoggingBit(s.config);
    assert TPERM_ALL & TPERM_KCONFIG != 0;
  }

  lemma ConfigureStep(s: KState)
    requires TwoCanRun(s)
    ensures Allowed(s, Calls(s, LOG_ERRNO))
    ensures var r := Step(s, Calls(s, LOG_ERRNO)); r.exit.None? && TwoCanRun(r) && LogsErrNo(r)
  {
    var e := Calls(s, LOG_ERRNO);
    EnteredTouches(s, e);
    EnteredKeepsCore(s, e);
    TwoCanRunStill(s, Entered(s, e));
    ConfigureEffect(Entered(s, e));
    CallReturns(s, LOG_ERRNO);
    TwoCanRunStill(Entered(s, e), Step(s, e));
  }

  lemma TwoCanRunStill(s: KState, r: KState)
    requires TwoCanRun(s) && Core(r) && r.current == 0 && |r.threads| == |s.threads|
    requires forall i | 0 <= i < |s.threads| :: Touched(s.threads[i], r.threads[i])
    ensures TwoCanRun(r)
  {
    assert forall i :: CanSchedule(r.threads, i) <==> CanSchedule(s.threads, i);
  }

  /** The setup thread writes its errno and yields; then it is 0. */
  lemma WrittenErrNoIsLost(s: KState, errNo: int)
    requires TwoCanRun(s) && LogsErrNo(s) && errNo != 0
    ensures Allowed(s, UserErrno(errNo))
    ensures var w := Step(s, UserErrno(errNo)); var e := Calls(w, YIELD_TO_ANY);
            && Allowed(w, e) && Step(w, e).exit.None? && 0 < |Step(w, e).threads| && ErrNoOf(Step(w, e), 0) == 0
            && !IsReusable(Step(w, e).threads[0])
  {
    var w := Step(s, UserErrno(errNo));
    YieldsAway(w);
    LoggedStepKeepsErrNosIff(w, UserFrame(w), YIELD_TO_ANY);
    YieldKeepsSlot(w);
  }

  lemma YieldKeepsSlot(s: KState)
    requires TwoCanRun(s) && Step(s, Calls(s, YIELD_TO_ANY)).exit.None?
    ensures var r := Step(s, Calls(s, YIELD_TO_ANY)); |r.threads| == |s.threads| && !IsReusable(r.threads[0])
  {
    var e := Calls(s, YIELD_TO_ANY);
    EnteredTouches(s, e);
    StepTouches(s, e);
    assert Effect(Entered(s, e), e) == Entered(s, e);
    TouchedTwice(s, Entered(s, e), Step(s, e));
    TouchedKeepsSchedulable(s, Step(s, e));
  }

  lemma YieldsAway(s: KState)
    requires TwoCanRun(s)
    ensures CallExit(s, YIELD_TO_ANY).None? && RunsScheduler(s, YIELD_TO_ANY) && !CallerRunsOn(s, YIELD_TO_ANY)
  {
    ChoiceGetsCloser(s.threads, 0, 1);
  }

  /** The setup thread writes its errno and yields. */
  function WriteAndYield(s: KState, errNo: int): seq<Event>
    requires s.WF() && s.current != NULL
  {
    [UserErrno(errNo)] + ([Calls(s.WithErrNo(errNo), YIELD_TO_ANY)] + [])
  }

  /** What it expects its errno to be is what it wrote last. */
  lemma WrittenErrNoIsExpected(s: KState, errNo: int, before: int)
    requires Core(s) && s.current == 0
    requires var w := Step(s, UserErrno(errNo)); Allowed(w, Calls(w, YIELD_TO_ANY))
    ensures var w := Step(s, UserErrno(errNo)); var es := WriteAndYield(s, errNo);
            && IsRun(s, es) && Run(s, es) == Step(w, Calls(w, YIELD_TO_ANY))
            && ExpectedErrNo(s, es, 0, before) == errNo
  {
    var w := Step(s, UserErrno(errNo));
    var e := Calls(w, YIELD_TO_ANY);
    RunFrom(w, e, []);
    RunFrom(s, UserErrno(errNo), [e] + []);
    ExpectedOn(w, e, [], 0, errNo);
    ExpectedOn(s, UserErrno(errNo), [e] + [], 0, before);
  }

  lemma ExpectedOn(s: KState, e: Event, rest: seq<Event>, i: int, errNo: int)
    requires Allowed(s, e) && IsRun(Step(s, e), rest)
    ensures IsRun(s, [e] + rest)
    ensures ExpectedErrNo(s, [e] + rest, i, errNo)
            == ExpectedErrNo(Step(s, e), rest, i, if s.current == i then OwnErrNo(s.WithErrNo(errNo), e) else errNo)
  {
    assert ([e] + rest)[1..] == rest;
  }

  /** While failed calls are logged, a thread that writes its errno and yields finds 0 in it. */
  lemma ErrNoCanBeLost(s: KState, setup: int) returns (es: seq<Event>)
    requires IsCold(s) && |s.threads| >= 3 && |s.pages| >= 2
    ensures var b := Booted(s, BuiltIn(setup));
            && IsRun(b, es) && Run(b, es).exit.None? && 0 < |Run(b, es).threads|
            && !IsReusable(Run(b, es).threads[0])
            && ErrNoOf(Run(b, es), 0) == 0 && forall errNo :: ExpectedErrNo(b, es, 0, errNo) == 5
  {
    var b := Booted(s, BuiltIn(setup));
    BootRunsSetup(s, setup);
    AddStep(b);
    var t := Step(b, Calls(b, ADD_THREAD));
    ConfigureStep(t);
    var u := Step(t, Calls(t, LOG_ERRNO));
    WrittenErrNoIsLost(u, 5);
    var write := WriteAndYield(u, 5);
    forall before
      ensures IsRun(u, write) && ExpectedErrNo(u, write, 0, before) == 5
    {
      WrittenErrNoIsExpected(u, 5, before);
    }
    WrittenErrNoIsExpected(u, 5, 0);
    RunFrom(t, Calls(t, LOG_ERRNO), write);
    RunFrom(b, Calls(b, ADD_THREAD), [Calls(t, LOG_ERRNO)] + write);
    ExpectedWhatever(t, Calls(t, LOG_ERRNO), write, 5);
    ExpectedWhatever(b, Calls(b, ADD_THREAD), [Calls(t, LOG_ERRNO)] + write, 5);
    es := [Calls(b, ADD_THREAD)] + ([Calls(t, LOG_ERRNO)] + write);
  }

  /** If every errno before a step is forgotten after it, it is forgotten with one more step before. */
  lemma ExpectedWhatever(s: KState, e: Event, rest: seq<Event>, expected: int)
    requires Allowed(s, e) && IsRun(Step(s, e), rest)
    requires forall before :: ExpectedErrNo(Step(s, e), rest, 0, before) == expected
    ensures IsRun(s, [e] + rest) && forall before :: ExpectedErrNo(s, [e] + rest, 0, before) == expected
  {
    RunFrom(s, e, rest);
    forall before
      ensures ExpectedErrNo(s, [e] + rest, 0, before) == expected
    {
      ExpectedOn(s, e, rest, 0, before);
    }
  }

  // ---- Unsaved writes that are lost

  /** Thread 1 runs from page 0, and a thread in slot 2 that holds the page too can run. */
  ghost predicate SharesPage(s: KState) {
    && Core(s) && s.current == 1 && |s.threads| >= 3 && |s.pages| >= 2 && s.threads[1].codeBackingPage == 0
    && CanSchedule(s.threads, 2) && s.threads[2].codeBackingPage == 0
  }

  lemma ShareEffect(s: KState)
    requires LoaderRuns(s)
    ensures var x := CallEffect(s, ADD_THREAD);
            && |x.threads| == |s.threads| && |x.pages| == |s.pages| && x.threads[1] == s.threads[1]
            && CanSchedule(x.threads, 2) && x.threads[2].codeBackingPage == 0
  {
    AddCallOnlyAdds(s, ADD_THREAD);
    assert FirstReusable(s.threads, 0) == FirstReusable(s.threads, 1) == FirstReusable(s.threads, 2) == 2;
    assert TPERM_ALL & TPERM_CREATE != 0;
  }

  lemma LoaderRunsStill(s: KState, x: KState)
    requires LoaderRuns(s) && OnlyTouched(s, x) && Core(x) && x.current == 1
    ensures LoaderRuns(x)
  {
    TouchedKeepsSchedulable(s, x);
  }

  lemma SharesPageNow(x: KState, r: KState)
    requires OnlyTouched(x, r) && Core(r) && r.current == 1 && |x.threads| >= 3 && |x.pages| >= 2
    requires x.threads[1].codeBackingPage == 0 && CanSchedule(x.threads, 2) && x.threads[2].codeBackingPage == 0
    ensures SharesPage(r)
  {
    TouchedKeepsSchedulable(x, r);
  }

  lemma ShareStep(s: KState)
    requires LoaderRuns(s)
    ensures Allowed(s, Calls(s, ADD_THREAD))
    ensures var r := Step(s, Calls(s, ADD_THREAD)); r.exit.None? && SharesPage(r)
  {
    var e := Calls(s, ADD_THREAD);
    EnteredTouches(s, e);
    EnteredKeepsCore(s, e);
    LoaderRunsStill(s, Entered(s, e));
    ShareEffect(Entered(s, e));
    CallReturns(s, ADD_THREAD);
    SharesPageNow(CallEffect(Entered(s, e), ADD_THREAD), Step(s, e));
  }

  /** Thread 1 writes its code page and ends. */
  function WriteAndEnd(s: KState, page: Page): seq<Event>
    requires s.WF() && s.current != NULL
  {
    [UserCode(page)] + ([ThreadExit(UserFrame(s))] + [])
  }

  /** Slot 2 still holds the page, but the page does not contain what was written. */
  lemma WriteIsLost(s: KState, page: Page)
    requires SharesPage(s) && page != s.pages[0].data
    ensures var es := WriteAndEnd(s, page);
            && IsRun(s, es) && Run(s, es).exit.None?
            && var r := Run(s, es);
               && r.WF() && r.current != NULL && |r.pages| == |s.pages| && |r.threads| == |s.threads|
               && r.threads[2].codeBackingPage == 0 && Content(r, 0) == s.pages[0].data
    ensures forall content :: Expected(s, WriteAndEnd(s, page), 0, content) == Some(page)
  {
    var w, e := Step(s, UserCode(page)), ThreadExit(UserFrame(s));
    assert CanSchedule(w.threads, 2) && 2 != w.current;
    assert Core(w);
    StepEndsKernelIff(w, e);
    StepKeepsContent(w, e, 0);
    EndReleasesOnlyOwnPage(w, e);
    RunFrom(w, e, []);
    RunFrom(s, UserCode(page), [e] + []);
    WriteIsExpected(s, page);
  }

  lemma WriteIsExpected(s: KState, page: Page)
    requires SharesPage(s) && IsRun(s, WriteAndEnd(s, page))
    requires var w := Step(s, UserCode(page)); Allowed(w, ThreadExit(UserFrame(s)))
    ensures forall content :: Expected(s, WriteAndEnd(s, page), 0, content) == Some(page)
  {
    var w, e := Step(s, UserCode(page)), ThreadExit(UserFrame(s));
    RunFrom(w, e, []);
    EndKeepsExpected(w, e, page);
    forall content
      ensures Expected(s, WriteAndEnd(s, page), 0, content) == Some(page)
    {
      ExpectedStep(s, UserCode(page), [e] + [], content);
      ExpectedStep(w, e, [], Some(page));
    }
  }

  lemma EndKeepsExpected(s: KState, e: Event, page: Page)
    requires SharesPage(s) && Allowed(s, e) && e.ThreadExit?
    ensures Expecting(s, e, 0, Some(page)) == Some(page)
  {
    assert !IsLastHolder(s.threads, s.current, 0);
  }

  lemma ExpectedStep(s: KState, e: Event, rest: seq<Event>, content: Option<Page>)
    requires Allowed(s, e) && IsRun(Step(s, e), rest)
    ensures IsRun(s, [e] + rest)
    ensures Expected(s, [e] + rest, 0, content) == Expected(Step(s, e), rest, 0, Expecting(s, e, 0, content))
  {
    assert ([e] + rest)[1..] == rest;
  }

  /** From the loader on: share the page, write it and end. */
  lemma LoaderLosesWrite(l: KState) returns (es: seq<Event>, page: Page)
    requires LoaderRuns(l)
    ensures IsRun(l, es) && Run(l, es).exit.None?
    ensures var r := Run(l, es);
            && r.WF() && r.current != NULL && 0 < |r.pages| && 2 < |r.threads|
            && r.threads[2].codeBackingPage == 0 && Content(r, 0) != page
    ensures forall content :: Expected(l, es, 0, content) == Some(page)
  {
    ShareStep(l);
    var t := Step(l, Calls(l, ADD_THREAD));
    page := t.pages[0].data + [0];
    WriteIsLost(t, page);
    var write := WriteAndEnd(t, page);
    RunFrom(l, Calls(l, ADD_THREAD), write);
    es := [Calls(l, ADD_THREAD)] + write;
    forall content
      ensures Expected(l, es, 0, content) == Some(page)
    {
      ExpectedStep(l, Calls(l, ADD_THREAD), write, content);
    }
  }

  /** A thread that shares its page and ends loses what it has written since it was last switched in. */
  lemma WritesCanBeLost(s: KState, setup: int) returns (es: seq<Event>, page: Page)
    requires IsCold(s) && |s.threads| >= 3 && |s.pages| >= 2
    ensures var b := Booted(s, BuiltIn(setup));
            && IsRun(b, es) && Run(b, es).exit.None?
            && var r := Run(b, es);
               && r.WF() && r.current != NULL && 0 < |r.pages| && 2 < |r.threads|
               && r.threads[2].codeBackingPage == 0 && Content(r, 0) != page
    ensures Expected(Booted(s, BuiltIn(setup)), es, 0, None) == Some(page)
  {
    var b := Booted(s, BuiltIn(setup));
    var load := BootRunsLoader(s, setup);
    var rest;
    rest, page := LoaderLosesWrite(Run(b, load));
    RunOn(b, load, rest);
    ExpectedAfter(b, load, rest, page, None);
    es := load + rest;
  }

  /** If a page is expected after a run whatever came before, then also with more before. */
  lemma {:induction false} ExpectedAfter(s: KState, es: seq<Event>, more: seq<Event>, page: Page, content: Option<Page>)
    requires IsRun(s, es) && IsRun(Run(s, es), more)
    requires forall before :: Expected(Run(s, es), more, 0, before) == Some(page)
    ensures IsRun(s, es + more) && Expected(s, es + more, 0, content) == Some(page)
    decreases |es|
  {
    RunOn(s, es, more);
    if es == [] {
      assert es + more == more;
    } else {
      RunTail(s, es);
      ExpectedAfter(Step(s, es[0]), es[1..], more, page, Expecting(s, es[0], 0, content));
      ExpectedStep(s, es[0], es[1..] + more, content);
      FirstApart(es, more);
    }
  }

  // ---- An image that is lost

  /** Thread 1 loads an image into its page, and the timer interrupts it. */
  function LoadAndTick(s: KState, image: Page): seq<Event>
    requires s.WF() && s.current != NULL
  {
    [LoadImage(image)] + ([TimerTick(UserFrame(s))] + [])
  }

  /** Thread 1 has not come to its end, and holds its page. */
  ghost predicate StillLoads(s: KState) {
    1 < |s.threads| && !IsReusable(s.threads[1]) && s.threads[1].codeBackingPage == 0
  }

  lemma TickSwitchesAway(s: KState)
    requires LoaderRuns(s)
    ensures Allowed(s, TimerTick(UserFrame(s)))
    ensures Step(s, TimerTick(UserFrame(s))).exit.None? && Step(s, TimerTick(UserFrame(s))).current != 1
    ensures StillLoads(Step(s, TimerTick(UserFrame(s))))
  {
    var e := TimerTick(UserFrame(s));
    StepEndsKernelIff(s, e);
    EnteredTouches(s, e);
    TouchedKeepsSchedulable(s, Entered(s, e));
    StepTouches(s, e);
    TouchedTwice(s, Entered(s, e), Step(s, e));
    StepPicks(s, e);
    ChoiceGetsCloser(Entered(s, e).threads, 1, 0);
  }

  /** The code page has been written over the image. */
  lemma ImageIsLost(s: KState, image: Page)
    requires LoaderRuns(s)
    ensures var es := LoadAndTick(s, image);
            && IsRun(s, es) && Run(s, es).exit.None? && |Run(s, es).pages| == |s.pages|
            && Run(s, es).pages[0].data == s.codePage && StillLoads(Run(s, es))
  {
    var w, e := Step(s, LoadImage(image)), TimerTick(UserFrame(s));
    LoadKeepsLoader(s, image);
    TickSwitchesAway(w);
    SwitchDropsImageUnless(w, e);
    RunFrom(w, e, []);
    RunFrom(s, LoadImage(image), [e] + []);
  }

  lemma LoadKeepsLoader(s: KState, image: Page)
    requires LoaderRuns(s)
    ensures Allowed(s, LoadImage(image)) && LoaderRuns(Step(s, LoadImage(image)))
    ensures Step(s, LoadImage(image)).codePage == s.codePage
    ensures UserFrame(Step(s, LoadImage(image))) == UserFrame(s)
  {
  }

  /** A timer tick between the load and the restart loses the image. */
  lemma ImageCanBeLost(s: KState, setup: int) returns (es: seq<Event>, image: Page)
    requires IsCold(s) && |s.threads| >= 3 && |s.pages| >= 2
    ensures var b := Booted(s, BuiltIn(setup));
            && IsRun(b, es) && Run(b, es).exit.None? && 0 < |Run(b, es).pages|
            && LastImage(es, []) == image && Run(b, es).pages[0].data != image && StillLoads(Run(b, es))
  {
    var b := Booted(s, BuiltIn(setup));
    var load := BootRunsLoader(s, setup);
    var l := Run(b, load);
    image := l.codePage + [0];
    ImageIsLost(l, image);
    RunOn(b, load, LoadAndTick(l, image));
    es := load + LoadAndTick(l, image);
    LastImageOn(load, LoadAndTick(l, image), []);
    LastImageIs(l, image, LastImage(load, []));
  }

  lemma LastImageIs(s: KState, image: Page, before: Page)
    requires s.WF() && s.current != NULL
    ensures LastImage(LoadAndTick(s, image), before) == image
  {
    LastImageStep(LoadImage(image), [TimerTick(UserFrame(s))] + [], before);
    LastImageStep(TimerTick(UserFrame(s)), [], image);
  }

  lemma LastImageStep(e: Event, rest: seq<Event>, image: Page)
    ensures LastImage([e] + rest, image) == LastImage(rest, if e.LoadImage? then e.page else image)
  {
    assert ([e] + rest)[1..] == rest;
  }

  lemma {:induction false} LastImageOn(es: seq<Event>, more: seq<Event>, image: Page)
    ensures LastImage(es + more, image) == LastImage(more, LastImage(es, image))
    decreases |es|
  {
    if es == [] {
      assert es + more == more;
    } else {
      LastImageOn(es[1..], more, if es[0].LoadImage? then es[0].page else image);
      LastImageStep(es[0], es[1..] + more, image);
      FirstApart(es, more);
    }
  }
}
