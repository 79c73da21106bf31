/** The code page as a one-slot write-back cache of the backing pages. */
module PageCache {
  import opened Basics
  import opened Threads
  import opened Scheduler
  import opened Lifecycle
  import opened Rings
  import opened Steps
  import opened CoreInvariant
  import opened Effects
  import opened StepParts

  /** The two copies of a page: what its threads see, and what its backing store holds. */
  datatype Copies = Copies(live: Page, stored: Page)

  /** What page p contains while thread `who` is the running one. */
  function ContentFor(s: KState, who: int, p: nat): Page
    requires s.WF() && 0 <= who < |s.threads| && p < |s.pages|
  {
    if s.threads[who].codeBackingPage == p then s.codePage else s.pages[p].data
  }

  /** What page p contains: the code page if the running thread holds p, else the backing data. */
  function Content(s: KState, p: nat): Page
    requires s.WF() && s.current != NULL && p < |s.pages|
  {
    ContentFor(s, s.current, p)
  }

  function CopiesFor(s: KState, who: int, p: nat): Copies
    requires s.WF() && 0 <= who < |s.threads| && p < |s.pages|
  {
    Copies(ContentFor(s, who, p), s.pages[p].data)
  }

  function CopiesOf(s: KState, p: nat): Copies
    requires s.WF() && s.current != NULL && p < |s.pages|
  {
    CopiesFor(s, s.current, p)
  }

  // ---- Switches

  /** A switch to another thread writes the live copy back; nothing else moves. */
  function Carried(c: Copies, stays: bool): Copies {
    if stays then c else Copies(c.live, c.live)
  }

  lemma SwitchCarries(s: KState, next: int, p: nat)
    requires s.WF() && s.current != NULL && 0 <= next < |s.threads| && p < |s.pages|
    ensures |SwitchTo(s, next).pages| == |s.pages| && |SwitchTo(s, next).threads| == |s.threads|
    ensures CopiesFor(SwitchTo(s, next), next, p) == Carried(CopiesOf(s, p), next == s.current)
  {
  }

  /** Whether or not the scheduler runs, leaving the kernel carries the copies of the state it saw. */
  lemma LeavingCarries(x: KState, runs: bool, z: KState, depth: int, p: nat)
    requires Ends(x, runs, z, depth) && p < |x.pages|
    ensures Resumed(z).current == z.next && |Resumed(z).pages| == |x.pages|
    ensures CopiesOf(Resumed(z), p) == Carried(CopiesOf(x, p), z.next == x.current)
  {
    if runs {
      SwitchCarries(x, z.next, p);
    }
    var y := Picked(x, runs, z.next);
    assert SameLife(y.threads[z.next], z.threads[z.next]);
  }

  // ---- Effects

  lemma AddKeepsData(s: KState, call: Call, p: nat)
    requires Core(s) && call.AddThread? && p < |s.pages|
    ensures |CallEffect(s, call).pages| == |s.pages| && CallEffect(s, call).pages[p].data == s.pages[p].data
  {
    if call.flags.Some? && !HasNoPermission(s, TPERM_CREATE) {
      var f := call.flags.value;
      if f.isFile {
        FromFileKeepsData(s, call.filename, f.removePermissions, p);
      } else {
        assert CallEffect(s, call) == AddNamedThread(s, call.worker, call.name,
          if call.args.Some? then call.args.value else ThreadArgs(0, 0, 0, 0), f.removePermissions).0;
      }
    }
  }

  lemma FromFileKeepsData(s: KState, filename: string, remove: bv16, p: nat)
    requires Core(s) && p < |s.pages|
    ensures var r := AddThreadFromFile(s, filename, remove).0;
            |r.pages| == |s.pages| && r.pages[p].data == s.pages[p].data
  {
    var q := FindFreeBackingPage(s.pages, 0);
    if q != INVALID_PAGE {
      var added := AddNamedThread(s, LOAD_ELF, Some("loader"), ThreadArgs(q, remove as int, 0, 0), 0).0;
      assert |added.pages| == |s.pages| && added.pages[p].data == s.pages[p].data;
    }
  }

  predicate CancelsSelf(s: KState, call: Call)
    requires s.WF() && s.current != NULL
  {
    call.ThreadCancel? && (call.tid == CURRENT_THREAD || call.tid == s.Current().id)
  }

  /** The event ends the running thread, which drops its page before the switch. */
  predicate DropsPage(s: KState, e: Event)
    requires s.WF() && s.current != NULL
  {
    e.ThreadExit? || (IsCall(e) && CancelsSelf(s, e.call))
  }

  /** The running thread starts over with the program in its backing page. */
  predicate Restarts(e: Event) {
    IsCall(e) && e.call.Restart?
  }

  predicate HoldsPage(s: KState, p: nat)
    requires s.WF() && s.current != NULL
  {
    s.Current().codeBackingPage == p
  }

  /** An entry either leaves both copies of a page alone, or makes the stored one live: when the
      running thread drops the page, and when it restarts. */
  function Affecting(s: KState, e: Event, p: nat, c: Copies): Copies
    requires s.WF() && s.current != NULL
  {
    if HoldsPage(s, p) && (DropsPage(s, e) || Restarts(e)) then Copies(c.stored, c.stored) else c
  }

  lemma CallAffectsCopies(s: KState, call: Call, p: nat)
    requires Core(s) && CallIsUsable(s, call) && p < |s.pages|
    requires CallEffect(s, call).current == s.current && |CallEffect(s, call).threads| == |s.threads|
    ensures var x := CallEffect(s, call);
            |x.pages| == |s.pages| && CopiesOf(x, p) == Affecting(s, Syscall(s.cpu, call, true), p, CopiesOf(s, p))
  {
    if call.ThreadCancel? {
      CancelAffectsCopies(s, call.tid, p);
    } else if call.Restart? {
      RestartChangesCurrent(s, call);
    } else {
      OtherCallKeepsCopies(s, call, p);
    }
  }

  lemma OtherCallKeepsCopies(s: KState, call: Call, p: nat)
    requires Core(s) && CallIsUsable(s, call) && p < |s.pages| && !call.ThreadCancel? && !call.Restart?
    requires CallEffect(s, call).current == s.current && |CallEffect(s, call).threads| == |s.threads|
    ensures var x := CallEffect(s, call); |x.pages| == |s.pages| && CopiesOf(x, p) == CopiesOf(s, p)
  {
    if call.AddThread? {
      AddCallOnlyAdds(s, call);
      AddKeepsData(s, call, p);
    } else if call.SetThreadProperty? {
      SetPropertyKeeps(s, call.tid, call.value);
    } else {
      PlainCallKeeps(s, call);
    }
  }

  lemma CancelAffectsCopies(s: KState, tid: int, p: nat)
    requires Core(s) && p < |s.pages|
    ensures var x := CallEffect(s, ThreadCancel(tid));
            && |x.pages| == |s.pages| && x.current == s.current && |x.threads| == |s.threads|
            && CopiesOf(x, p) == Affecting(s, Syscall(s.cpu, ThreadCancel(tid), true), p, CopiesOf(s, p))
  {
    CancelChangesSlot(s, tid);
    CancelKeepsData(s, tid, p);
  }

  lemma CancelKeepsData(s: KState, tid: int, p: nat)
    requires Core(s) && p < |s.pages|
    ensures var x := CallEffect(s, ThreadCancel(tid)); |x.pages| == |s.pages| && x.pages[p].data == s.pages[p].data
  {
  }

  lemma EntryAffectsCopies(s: KState, e: Event, p: nat)
    requires Core(s) && Allowed(s, e) && IsEntry(e) && Step(s, e).exit.None? && p < |s.pages|
    requires Affected(s, e).current == s.current && |Affected(s, e).threads| == |s.threads|
    ensures |Affected(s, e).pages| == |s.pages|
    ensures CopiesOf(Affected(s, e), p) == Affecting(s, e, p, CopiesOf(s, p))
  {
    if IsCall(e) {
      CallEntryAffectsCopies(s, e.frame, e.call, p);
    } else if e.Syscall? {
      HiddenKeepsCopies(s, e, p);
    } else {
      OtherEntryAffectsCopies(s, e, p);
    }
  }

  lemma OtherEntryAffectsCopies(s: KState, e: Event, p: nat)
    requires Core(s) && Allowed(s, e) && IsEntry(e) && !e.Syscall? && p < |s.pages|
    ensures var x := Affected(s, e);
            && x.current == s.current && |x.pages| == |s.pages| && |x.threads| == |s.threads|
            && CopiesOf(x, p) == Affecting(s, e, p, CopiesOf(s, p))
  {
    if e.ThreadExit? {
      EndedDropsCopy(s, e.frame, p);
    }
  }

  lemma EndedDropsCopy(s: KState, f: Frame, p: nat)
    requires s.WF() && s.current != NULL && p < |s.pages|
    ensures var x := Ended(s, f);
            && x.current == s.current && |x.pages| == |s.pages| && |x.threads| == |s.threads|
            && CopiesOf(x, p) == Affecting(s, ThreadExit(f), p, CopiesOf(s, p))
  {
    EndedIs(s, f);
    EndedKeepsData(s, f, p);
  }

  lemma CallEntryAffectsCopies(s: KState, f: Frame, call: Call, p: nat)
    requires Core(s) && Allowed(s, Syscall(f, call, true)) && Step(s, Syscall(f, call, true)).exit.None?
    requires p < |s.pages|
    requires var x := Affected(s, Syscall(f, call, true)); x.current == s.current && |x.threads| == |s.threads|
    ensures var e := Syscall(f, call, true);
            |Affected(s, e).pages| == |s.pages| && CopiesOf(Affected(s, e), p) == Affecting(s, e, p, CopiesOf(s, p))
  {
    CallStepIs(s, f, call);
    EntryKeepsCopies(s, f, call, p);
    CallAffectsCopies(CallEntry(s, f), call, p);
  }

  lemma EntryKeepsCopies(s: KState, f: Frame, call: Call, p: nat)
    requires Core(s) && p < |s.pages|
    ensures var x := CallEntry(s, f);
            && |x.pages| == |s.pages| && |x.threads| == |s.threads| && CopiesOf(x, p) == CopiesOf(s, p)
            && Affecting(x, Syscall(x.cpu, call, true), p, CopiesOf(s, p))
               == Affecting(s, Syscall(f, call, true), p, CopiesOf(s, p))
  {
  }

  lemma HiddenKeepsCopies(s: KState, e: Event, p: nat)
    requires Core(s) && Allowed(s, e) && e.Syscall? && !e.stackOk && p < |s.pages|
    ensures var x := Affected(s, e);
            && x.current == s.current && |x.pages| == |s.pages| && |x.threads| == |s.threads|
            && CopiesOf(x, p) == Affecting(s, e, p, CopiesOf(s, p))
  {
  }

  lemma EndedKeepsData(s: KState, f: Frame, p: nat)
    requires s.WF() && s.current != NULL && p < |s.pages|
    ensures |Ended(s, f).pages| == |s.pages| && Ended(s, f).pages[p].data == s.pages[p].data
  {
  }

  // ---- Steps

  /** What a step does to the two copies of page p.  Only the thread that runs from p matters: its
      own code writes the live copy, the loader writes the stored one, a restart or an end makes the
      stored copy live, and a switch away stores the live one. */
  ghost function NextCopies(s: KState, e: Event, p: nat, c: Copies): Copies
    requires Allowed(s, e)
  {
    if !HoldsPage(s, p) then c
    else
      match e
      case UserErrno(_) => c
      case UserCode(page) => c.(live := page)
      case LoadImage(page) => c.(stored := page)
      case _ => Carried(Affecting(s, e, p, c), Step(s, e).current == s.current)
  }

  lemma StepMovesCopies(s: KState, e: Event, p: nat)
    requires Core(s) && Allowed(s, e) && Step(s, e).exit.None? && p < |s.pages|
    ensures Step(s, e).current != NULL && |Step(s, e).pages| == |s.pages|
    ensures CopiesOf(Step(s, e), p) == NextCopies(s, e, p, CopiesOf(s, p))
  {
    if IsEntry(e) {
      EntryMovesCopies(s, e, p);
    }
  }

  lemma EntryMovesCopies(s: KState, e: Event, p: nat)
    requires Core(s) && Allowed(s, e) && IsEntry(e) && Step(s, e).exit.None? && p < |s.pages|
    ensures Step(s, e).current != NULL && |Step(s, e).pages| == |s.pages|
    ensures CopiesOf(Step(s, e), p) == NextCopies(s, e, p, CopiesOf(s, p))
  {
    EntryParts(s, e);
    EntryAffectsCopies(s, e, p);
    LeavingCarries(Affected(s, e), Schedules(s, e), Leaving(s, e), AnswerDepth(s, e), p);
  }

  /** Every step but the page's own code and a restart keeps every page's content, except that a
      thread that ends drops what it wrote to its page since it was last switched in. */
  lemma StepKeepsContent(s: KState, e: Event, p: nat)
    requires Core(s) && Allowed(s, e) && Step(s, e).exit.None? && p < |s.pages| && !e.UserCode? && !Restarts(e)
    ensures Step(s, e).current != NULL && |Step(s, e).pages| == |s.pages|
    ensures Content(Step(s, e), p) == if DropsPage(s, e) && HoldsPage(s, p) then s.pages[p].data else Content(s, p)
  {
    StepMovesCopies(s, e, p);
  }

  /** The pages that threads still hold have kept their content. */
  ghost predicate HeldPagesKept(s: KState, r: KState)
    requires s.WF() && r.WF() && s.current != NULL && r.current != NULL && |r.pages| == |s.pages|
  {
    forall i | 0 <= i < |r.threads| && r.threads[i].codeBackingPage != INVALID_PAGE ::
      Content(r, r.threads[i].codeBackingPage) == Content(s, r.threads[i].codeBackingPage)
  }

  predicate IsLastHolder(ts: seq<Thread>, current: int, p: nat) {
    forall i | 0 <= i < |ts| && i != current :: ts[i].codeBackingPage != p
  }

  /** A thread's end keeps the content of every page that is still held exactly when the ending
      thread had no unsaved writes or was the last holder of its page. */
  lemma EndKeepsHeldPagesIff(s: KState, e: Event)
    requires Core(s) && Allowed(s, e) && Step(s, e).exit.None? && DropsPage(s, e)
    requires s.Current().codeBackingPage != INVALID_PAGE
    ensures var p := s.Current().codeBackingPage; var r := Step(s, e);
            && r.current != NULL && |r.pages| == |s.pages|
            && (HeldPagesKept(s, r) <==> s.codePage == s.pages[p].data || IsLastHolder(s.threads, s.current, p))
  {
    var p, r := s.Current().codeBackingPage, Step(s, e);
    StepMovesCopies(s, e, p);
    forall q | 0 <= q < |s.pages|
      ensures Content(r, q) == if q == p then s.pages[p].data else Content(s, q)
    {
      StepMovesCopies(s, e, q);
    }
    EndReleasesOnlyOwnPage(s, e);
    KeptIff(s, r, p);
  }

  lemma KeptIff(s: KState, r: KState, p: nat)
    requires s.WF() && r.WF() && s.current != NULL && r.current != NULL
    requires |r.pages| == |s.pages| && |r.threads| == |s.threads|
    requires p < |s.pages| && s.Current().codeBackingPage == p
    requires forall q | 0 <= q < |s.pages| :: Content(r, q) == if q == p then s.pages[p].data else Content(s, q)
    requires forall i | 0 <= i < |s.threads| ::
               r.threads[i].codeBackingPage == if i == s.current then INVALID_PAGE else s.threads[i].codeBackingPage
    ensures HeldPagesKept(s, r) <==> s.codePage == s.pages[p].data || IsLastHolder(s.threads, s.current, p)
  {
  }

  lemma EndReleasesOnlyOwnPage(s: KState, e: Event)
    requires Core(s) && Allowed(s, e) && Step(s, e).exit.None? && DropsPage(s, e)
    ensures ReleasesOwnPage(s, Step(s, e))
  {
    EndingReleases(s, e);
    StepTouches(s, e);
    TouchKeepsRelease(s, Effect(Entered(s, e), e), Step(s, e));
  }

  lemma EndingReleases(s: KState, e: Event)
    requires Core(s) && Allowed(s, e) && DropsPage(s, e)
    ensures ReleasesOwnPage(s, Effect(Entered(s, e), e))
  {
    if e.Syscall? {
      EnteredTouches(s, e);
      EnteredKeepsCore(s, e);
      CancelEffectReleases(Entered(s, e), e.call);
    } else {
      EndedIs(s, e.frame);
    }
  }

  lemma TouchKeepsRelease(s: KState, x: KState, r: KState)
    requires ReleasesOwnPage(s, x) && OnlyTouched(x, r)
    ensures ReleasesOwnPage(s, r)
  {
  }

  lemma CancelEffectReleases(s: KState, call: Call)
    requires Core(s) && CallIsUsable(s, call) && CancelsSelf(s, call)
    ensures ReleasesOwnPage(s, CallEffect(s, call))
  {
    CancelChangesSlot(s, call.tid);
    CancelReleasesOwnPage(s, call.tid, CallEffect(s, call));
  }

  ghost predicate ReleasesOwnPage(s: KState, r: KState) {
    && |r.threads| == |s.threads|
    && forall i | 0 <= i < |s.threads| ::
         r.threads[i].codeBackingPage == if i == s.current then INVALID_PAGE else s.threads[i].codeBackingPage
  }

  lemma CancelReleasesOwnPage(s: KState, tid: int, r: KState)
    requires Core(s) && (tid == CURRENT_THREAD || tid == s.Current().id) && OnlyCancels(s, tid, r)
    ensures ReleasesOwnPage(s, r)
  {
  }

  /** The thread that runs next sees exactly its own page: as it was before the step, or the stored copy
      if the step restarts the thread or ends another that held the page. */
  lemma NextThreadSeesItsPage(s: KState, e: Event)
    requires Core(s) && Allowed(s, e) && Step(s, e).exit.None?
    requires Step(s, e).current != NULL && Step(s, e).Current().codeBackingPage < |s.pages|
    ensures var p := Step(s, e).Current().codeBackingPage;
            Step(s, e).codePage
            == if HoldsPage(s, p) && e.UserCode? then e.page
               else if HoldsPage(s, p) && (Restarts(e) || DropsPage(s, e)) then s.pages[p].data
               else Content(s, p)
  {
    StepMovesCopies(s, e, Step(s, e).Current().codeBackingPage);
  }

  // ---- Runs

  /** Both copies of page p after a run. */
  ghost function CopiesAfter(s: KState, es: seq<Event>, p: nat, c: Copies): Copies
    requires IsRun(s, es)
    decreases |es|
  {
    if es == [] then c else CopiesAfter(Step(s, es[0]), es[1..], p, NextCopies(s, es[0], p, c))
  }

  /** In every run, whatever is loaded, restarted, shared or ended, page p holds exactly what the
      threads that ran from p put there. */
  lemma {:induction false} EveryRunMovesCopies(s: KState, es: seq<Event>, p: nat)
    requires Core(s) && p < |s.pages| && IsRun(s, es) && Run(s, es).exit.None?
    ensures var r := Run(s, es);
            r.WF() && r.current != NULL && p < |r.pages| && CopiesOf(r, p) == CopiesAfter(s, es, p, CopiesOf(s, p))
    decreases |es|
  {
    if es == [] {
    } else {
      RunGoesOn(s, es);
      StepKeepsCore(s, es[0]);
      StepMovesCopies(s, es[0], p);
      EveryRunMovesCopies(Step(s, es[0]), es[1..], p);
    }
  }

  /** What an event makes of what is expected of page p: the last thing a thread that ran from p wrote,
      or the image its last restart found in the backing page.  Nothing is expected of a page that its
      last holder has given up, until the next program in it starts or writes. */
  ghost function Expecting(s: KState, e: Event, p: nat, content: Option<Page>): Option<Page>
    requires Allowed(s, e)
  {
    if p >= |s.pages| || !HoldsPage(s, p) then content
    else if e.UserCode? then Some(e.page)
    else if Restarts(e) then Some(s.pages[p].data)
    else if DropsPage(s, e) && IsLastHolder(s.threads, s.current, p) then None
    else content
  }

  /** What page p should contain after a run. */
  ghost function Expected(s: KState, es: seq<Event>, p: nat, content: Option<Page>): Option<Page>
    requires IsRun(s, es)
    decreases |es|
  {
    if es == [] then content else Expected(Step(s, es[0]), es[1..], p, Expecting(s, es[0], p, content))
  }

  /** Whoever ends while running from p has no unsaved writes or is the last holder of p. */
  ghost predicate EndsCleanly(s: KState, es: seq<Event>, p: nat)
    requires IsRun(s, es)
    decreases |es|
  {
    es == []
    || (&& (DropsPage(s, es[0]) && HoldsPage(s, p) && p < |s.pages| ==>
              s.codePage == s.pages[p].data || IsLastHolder(s.threads, s.current, p))
        && EndsCleanly(Step(s, es[0]), es[1..], p))
  }

  /** A step that ends no sharer with unsaved writes leaves in the page what is expected of it. */
  lemma StepKeepsExpected(s: KState, e: Event, p: nat, content: Option<Page>)
    requires Core(s) && Allowed(s, e) && Step(s, e).exit.None? && p < |s.pages| && EndsCleanly(s, [e], p)
    requires content.Some? ==> Content(s, p) == content.value
    ensures Step(s, e).current != NULL && p < |Step(s, e).pages|
    ensures var now := Expecting(s, e, p, content); now.Some? ==> Content(Step(s, e), p) == now.value
  {
    StepMovesCopies(s, e, p);
  }

  lemma FirstEndsCleanly(s: KState, es: seq<Event>, p: nat)
    requires IsRun(s, es) && es != [] && EndsCleanly(s, es, p)
    ensures IsRun(s, [es[0]]) && EndsCleanly(s, [es[0]], p) && EndsCleanly(Step(s, es[0]), es[1..], p)
  {
    assert [es[0]][1..] == [];
  }

  /** However threads are switched, created, loaded, restarted, woken or ended in between, a page
      contains what was last written to it. */
  lemma {:induction false} EveryRunKeepsContent(s: KState, es: seq<Event>, p: nat, content: Option<Page>)
    requires Core(s) && p < |s.pages| && IsRun(s, es) && Run(s, es).exit.None? && EndsCleanly(s, es, p)
    requires content.Some? ==> Content(s, p) == content.value
    ensures var r := Run(s, es);
            && r.WF() && r.current != NULL && p < |r.pages|
            && (Expected(s, es, p, content).Some? ==> Content(r, p) == Expected(s, es, p, content).value)
    decreases |es|
  {
    if es == [] {
    } else {
      RunGoesOn(s, es);
      StepKeepsCore(s, es[0]);
      FirstEndsCleanly(s, es, p);
      StepKeepsExpected(s, es[0], p, content);
      EveryRunKeepsContent(Step(s, es[0]), es[1..], p, Expecting(s, es[0], p, content));
    }
  }

  ghost predicate SomeoneHolds(s: KState, p: nat) {
    exists i :: 0 <= i < |s.threads| && s.threads[i].codeBackingPage == p
  }

  /** Some thread holds page p all along. */
  ghost predicate StaysHeld(s: KState, es: seq<Event>, p: nat)
    requires IsRun(s, es)
    decreases |es|
  {
    SomeoneHolds(s, p) && (es == [] || StaysHeld(Step(s, es[0]), es[1..], p))
  }

  /** While a page is held, its content is always accounted for. */
  lemma {:induction false} HeldPagesAreExpected(s: KState, es: seq<Event>, p: nat, content: Page)
    requires Core(s) && p < |s.pages| && IsRun(s, es) && Run(s, es).exit.None? && StaysHeld(s, es, p)
    ensures Expected(s, es, p, Some(content)).Some?
    decreases |es|
  {
    if es == [] {
    } else {
      RunGoesOn(s, es);
      StepKeepsCore(s, es[0]);
      HeldPageIsExpected(s, es[0], p, content);
      HeldPagesAreExpected(Step(s, es[0]), es[1..], p, Expecting(s, es[0], p, Some(content)).value);
    }
  }

  lemma HeldPageIsExpected(s: KState, e: Event, p: nat, content: Page)
    requires Core(s) && p < |s.pages| && Allowed(s, e) && Step(s, e).exit.None? && SomeoneHolds(Step(s, e), p)
    ensures Expecting(s, e, p, Some(content)).Some? && |Step(s, e).pages| == |s.pages|
  {
    StepMovesCopies(s, e, p);
    if DropsPage(s, e) {
      EndReleasesOnlyOwnPage(s, e);
      LastHolderLeavesNobody(s, Step(s, e), p);
    }
  }

  lemma LastHolderLeavesNobody(s: KState, r: KState, p: nat)
    requires ReleasesOwnPage(s, r) && p != INVALID_PAGE && SomeoneHolds(r, p)
    ensures !IsLastHolder(s.threads, s.current, p)
  {
  }

  // ---- Loading a program

  /** The running thread keeps the processor throughout. */
  ghost predicate KeepsProcessor(s: KState, es: seq<Event>)
    requires IsRun(s, es)
    decreases |es|
  {
    es == [] || (Step(s, es[0]).exit.None? && Step(s, es[0]).current == s.current
      && KeepsProcessor(Step(s, es[0]), es[1..]))
  }

  /** The image loaded last. */
  function LastImage(es: seq<Event>, image: Page): Page {
    if es == [] then image else LastImage(es[1..], if es[0].LoadImage? then es[0].page else image)
  }

  /** A thread that keeps the processor keeps its page. */
  lemma StayingKeepsPage(s: KState, e: Event)
    requires Core(s) && Allowed(s, e) && Step(s, e).exit.None? && Step(s, e).current == s.current
    ensures |Step(s, e).threads| == |s.threads| && !DropsPage(s, e)
    ensures Step(s, e).Current().codeBackingPage == s.Current().codeBackingPage
  {
    StepKeepsCore(s, e);
    StepTouches(s, e);
    StepKeepsThreadCount(s, e);
    EntryKeepsOwnPage(s, e);
  }

  lemma EntryKeepsOwnPage(s: KState, e: Event)
    requires Core(s) && Allowed(s, e) && Step(s, e).exit.None? && |Affected(s, e).threads| == |s.threads|
    ensures var t := Affected(s, e).threads[s.current];
            if DropsPage(s, e) then HasEnded(t) else t.codeBackingPage == s.Current().codeBackingPage
  {
    if IsCall(e) {
      CallEntryKeepsOwnPage(s, e.frame, e.call);
    } else if e.ThreadExit? {
      EndedIs(s, e.frame);
    } else {
      OtherEntryKeepsOwnPage(s, e);
    }
  }

  lemma CallEntryKeepsOwnPage(s: KState, f: Frame, call: Call)
    requires Core(s) && Allowed(s, Syscall(f, call, true)) && Step(s, Syscall(f, call, true)).exit.None?
    requires |Affected(s, Syscall(f, call, true)).threads| == |s.threads|
    ensures var t := Affected(s, Syscall(f, call, true)).threads[s.current];
            if CancelsSelf(s, call) then HasEnded(t) else t.codeBackingPage == s.Current().codeBackingPage
  {
    CallStepIs(s, f, call);
    EntryKeepsIdentity(s, f, call);
    CallKeepsOwnPage(CallEntry(s, f), call);
  }

  lemma EntryKeepsIdentity(s: KState, f: Frame, call: Call)
    requires s.WF() && s.current != NULL
    ensures CancelsSelf(CallEntry(s, f), call) <==> CancelsSelf(s, call)
    ensures CallEntry(s, f).Current().codeBackingPage == s.Current().codeBackingPage
  {
  }

  lemma OtherEntryKeepsOwnPage(s: KState, e: Event)
    requires Core(s) && Allowed(s, e) && !IsCall(e) && !e.ThreadExit?
    ensures Affected(s, e).threads[s.current].codeBackingPage == s.Current().codeBackingPage
  {
    EnteredKeepsPages(s, e);
    EventKeepsOwnPage(Entered(s, e), e);
  }

  lemma EnteredKeepsPages(s: KState, e: Event)
    requires s.WF() && s.current != NULL
    ensures Entered(s, e).Current().codeBackingPage == s.Current().codeBackingPage
  {
  }

  lemma EventKeepsOwnPage(s: KState, e: Event)
    requires s.WF() && s.current != NULL && !IsCall(e) && !e.ThreadExit? && (e.Syscall? ==> CallIsUsable(s, e.call))
    requires e.LoadImage? ==> s.Current().codeBackingPage != INVALID_PAGE
    ensures Effect(s, e).threads[s.current].codeBackingPage == s.Current().codeBackingPage
  {
  }

  lemma CallKeepsOwnPage(s: KState, call: Call)
    requires Core(s) && CallIsUsable(s, call) && |CallEffect(s, call).threads| == |s.threads|
    ensures if CancelsSelf(s, call) then CallEffect(s, call).threads[s.current].state == Cancelled
            else CallEffect(s, call).threads[s.current].codeBackingPage == s.Current().codeBackingPage
  {
    CallEffectChanges(s, call);
    ChangesKeepOwnPage(s, call, CallEffect(s, call));
  }

  lemma ChangesKeepOwnPage(s: KState, call: Call, r: KState)
    requires Core(s) && CallChanges(s, call, r)
    ensures if CancelsSelf(s, call) then r.threads[s.current].state == Cancelled
            else r.threads[s.current].codeBackingPage == s.Current().codeBackingPage
  {
  }

  /** A loader that keeps the processor while it loads its page and then restarts runs exactly the
      image it loaded last. */
  lemma {:induction false} LoadThenRestart(s: KState, es: seq<Event>, restart: Event)
    requires Core(s) && s.Current().codeBackingPage != INVALID_PAGE
    requires IsRun(s, es) && KeepsProcessor(s, es)
    requires Allowed(Run(s, es), restart) && Restarts(restart)
    ensures var r := Step(Run(s, es), restart); var p := s.Current().codeBackingPage;
            && r.exit.None? && r.current == s.current && r.WF() && r.Current().codeBackingPage == p < |r.pages|
            && r.codePage == Content(r, p) == LastImage(es, s.pages[p].data)
    decreases |es|
  {
    var p := s.Current().codeBackingPage;
    if es == [] {
      RestartRunsItsPage(s, restart);
    } else {
      StepKeepsCore(s, es[0]);
      StayingKeepsPage(s, es[0]);
      StepMovesCopies(s, es[0], p);
      StayingStores(s, es[0]);
      LoadThenRestart(Step(s, es[0]), es[1..], restart);
    }
  }

  /** Without a switch only the loader writes the stored copy. */
  lemma StayingStores(s: KState, e: Event)
    requires Core(s) && Allowed(s, e) && Step(s, e).exit.None? && Step(s, e).current == s.current
    requires s.Current().codeBackingPage != INVALID_PAGE
    ensures var p := s.Current().codeBackingPage; var r := Step(s, e);
            |r.pages| == |s.pages| && r.pages[p].data == if e.LoadImage? then e.page else s.pages[p].data
  {
    StayingKeepsPage(s, e);
    StepMovesCopies(s, e, s.Current().codeBackingPage);
  }

  /** A switch during the load writes the code page over the image: the image survives exactly if the
      code page happens to hold it already. */
  lemma SwitchDropsImageUnless(s: KState, e: Event)
    requires Core(s) && Allowed(s, e) && Step(s, e).exit.None? && Step(s, e).current != s.current && !DropsPage(s, e)
    requires s.Current().codeBackingPage != INVALID_PAGE
    ensures var p := s.Current().codeBackingPage; var r := Step(s, e);
            && |r.pages| == |s.pages| && r.pages[p].data == s.codePage
            && (r.pages[p].data == s.pages[p].data <==> s.codePage == s.pages[p].data)
  {
    StepMovesCopies(s, e, s.Current().codeBackingPage);
    if Restarts(e) || !IsEntry(e) {
      RestartsStay(s, e);
    }
  }

  lemma RestartsStay(s: KState, e: Event)
    requires Core(s) && Allowed(s, e) && Step(s, e).exit.None? && (Restarts(e) || !IsEntry(e))
    ensures Step(s, e).current == s.current
  {
    if Restarts(e) {
      RestartRunsItsPage(s, e);
    }
  }

  lemma RestartRunsItsPage(s: KState, restart: Event)
    requires Core(s) && Allowed(s, restart) && restart.Syscall? && restart.stackOk && restart.call.Restart?
    ensures var r := Step(s, restart); var p := s.Current().codeBackingPage;
            && r.exit.None? && r.current == s.current && |r.threads| == |s.threads|
            && r.pages == s.pages && r.codePage == s.pages[p].data && r.Current().codeBackingPage == p
  {
    var saved := Saved(s, restart.frame);
    SavedKeepsCore(s, restart.frame, restart.call);
    var entered := WithErrNoForCall(saved);
    RestartChangesCurrent(entered, restart.call);
    assert Dispatch(entered, restart.call).0 == CallEffect(entered, restart.call);
  }
}
