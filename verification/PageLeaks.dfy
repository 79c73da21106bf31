/**
 A run in which a page's reference count comes back to zero while the page is in use.  A thread
 that runs from a page leaves one count behind each time it loads a file and cancels the loader,
 and the count is a uint8_t.
 */
module PageLeaks {
  import opened Basics
  import opened BlockTags
  import opened Threads
  import opened Scheduler
  import opened Lifecycle
  import opened Rings
  import opened Steps
  import opened CoreInvariant
  import opened Effects
  import opened Choices
  import opened PageCounts
  import opened BootRuns

  /** The running thread runs from page p and may create threads, slot k is the next to be taken,
      and some page is free. */
  ghost predicate CanLeak(s: KState, p: nat, k: int) {
    && Core(s) && p < |s.pages| && s.Current().codeBackingPage == p && s.pages[p].refCount != 0
    && s.Current().permissions & TPERM_CREATE != 0
    && k != s.current && k == FirstReusable(s.threads, 0) != NULL
    && FindFreeBackingPage(s.pages, 0) != INVALID_PAGE
  }

  // ---- One round

  /** What a round needs of the records survives entering, scheduling and leaving the kernel. */
  lemma TouchKeepsSlots(s: KState, r: KState)
    requires OnlyTouched(s, r) && s.WF() && r.WF()
    ensures FirstReusable(r.threads, 0) == FirstReusable(s.threads, 0)
    ensures FindFreeBackingPage(r.pages, 0) == FindFreeBackingPage(s.pages, 0)
  {
    SameReusable(s.threads, r.threads, 0);
    SameFreePages(s.pages, r.pages, 0);
  }

  lemma {:induction false} SameFreePages(ps: seq<BackingPage>, qs: seq<BackingPage>, from: nat)
    requires |ps| == |qs| && from <= |ps| <= INVALID_PAGE
    requires forall p | 0 <= p < |ps| :: ps[p].refCount == qs[p].refCount
    ensures FindFreeBackingPage(ps, from) == FindFreeBackingPage(qs, from)
    decreases |ps| - from
  {
    if from == |ps| {
    } else {
      SameFreePages(ps, qs, from + 1);
    }
  }

  /** What loading a file leaves behind: a loader in slot k on the page that was free, and one more
      count on the caller's page. */
  ghost predicate Loaded(s: KState, r: KState, p: nat, k: int)
    requires CanLeak(s, p, k)
  {
    var q := FindFreeBackingPage(s.pages, 0);
    && r.WF() && r.current == s.current && |r.threads| == |s.threads| && |r.pages| == |s.pages|
    && r.Current().codeBackingPage == p && r.Current().permissions == s.Current().permissions
    && (forall i | 0 <= i < |s.threads| && i != k :: IsReusable(r.threads[i]) <==> IsReusable(s.threads[i]))
    && r.threads[k].id == k && r.threads[k].codeBackingPage == q
    && (forall g | 0 <= g < |s.pages| ::
          r.pages[g].refCount
          == if g == p then Incremented(s.pages[p].refCount) else if g == q then 1 else s.pages[g].refCount)
  }

  lemma EnteringKeepsCanLeak(s: KState, p: nat, k: int, e: Event)
    requires CanLeak(s, p, k)
    ensures CanLeak(Entered(s, e), p, k)
  {
    EnteredTouches(s, e);
    EnteredKeepsCore(s, e);
    TouchKeepsSlots(s, Entered(s, e));
  }

  lemma LoadEffect(s: KState, p: nat, k: int)
    requires CanLeak(s, p, k)
    ensures Dispatch(s, LOAD_FILE).0 == CallEffect(s, LOAD_FILE) == AddThreadFromFile(s, "", 0).0
    ensures Loaded(s, AddThreadFromFile(s, "", 0).0, p, k)
    ensures var d := AddThreadFromFile(s, "", 0).0; d.next == NULL && d.exit.None?
  {
    AddFromFileRecounts(s, "", 0);
    AddFromFileOnlyAdds(s, "", 0);
  }

  lemma LoadStep(s: KState, p: nat, k: int)
    requires CanLeak(s, p, k)
    ensures Allowed(s, Calls(s, LOAD_FILE))
    ensures var r := Step(s, Calls(s, LOAD_FILE)); r.exit.None? && Core(r) && Loaded(s, r, p, k)
  {
    var e := Calls(s, LOAD_FILE);
    var x := Entered(s, e);
    EnteringKeepsCanLeak(s, p, k, e);
    EnteredTouches(s, e);
    TouchKeepsSlots(s, x);
    LoadEffect(x, p, k);
    CallReturns(s, LOAD_FILE);
    LoadedAcross(s, x, AddThreadFromFile(x, "", 0).0, Step(s, e), p, k);
  }

  lemma LoadedAcross(s: KState, x: KState, y: KState, r: KState, p: nat, k: int)
    requires CanLeak(s, p, k) && CanLeak(x, p, k) && OnlyTouched(s, x) && x.current == s.current
    requires x.Current().permissions == s.Current().permissions
    requires FindFreeBackingPage(x.pages, 0) == FindFreeBackingPage(s.pages, 0)
    requires Loaded(x, y, p, k) && OnlyTouched(y, r) && r.WF() && r.current == s.current
    ensures Loaded(s, r, p, k)
  {
  }

  lemma CancelStep(s: KState, r: KState, p: nat, k: int)
    requires CanLeak(s, p, k) && Core(r) && Loaded(s, r, p, k) && s.pages[p].refCount < 255
    ensures Allowed(r, Calls(r, ThreadCancel(k)))
    ensures var c := Step(r, Calls(r, ThreadCancel(k)));
            c.exit.None? && CanLeak(c, p, k) && c.current == s.current && |c.pages| == |s.pages|
            && c.pages[p].refCount == s.pages[p].refCount + 1
  {
    var e := Calls(r, ThreadCancel(k));
    var x := Entered(r, e);
    EnteredTouches(r, e);
    EnteredKeepsCore(r, e);
    CancelChangesSlot(x, k);
    CancelledPages(x, k);
    CallReturns(r, ThreadCancel(k));
    CancelledAcross(s, r, x, CallEffect(x, ThreadCancel(k)), Step(r, e), p, k);
  }

  lemma CancelledAcross(s: KState, r: KState, x: KState, y: KState, c: KState, p: nat, k: int)
    requires CanLeak(s, p, k) && Core(r) && Loaded(s, r, p, k) && s.pages[p].refCount < 255
    requires OnlyTouched(r, x) && x.WF() && x.current == r.current && OnlyTouched(y, c) && Core(c)
    requires c.current == s.current
    requires |y.threads| == |x.threads| && forall i | 0 <= i < |x.threads| && i != k :: y.threads[i] == x.threads[i]
    requires y.threads[k].state == Cancelled
    requires var q := FindFreeBackingPage(s.pages, 0);
             y.pages == WithRefCount(x.pages, q, Decremented(x.pages[q].refCount))
    ensures CanLeak(c, p, k) && |c.pages| == |s.pages| && c.pages[p].refCount == s.pages[p].refCount + 1
  {
    CancelledSlots(s, c, k);
    FreedPage(c.pages, FindFreeBackingPage(s.pages, 0), 0);
  }

  lemma CancelledPages(s: KState, k: int)
    requires Core(s) && IsValidThread(s.threads, k) && k != s.current && s.threads[k].codeBackingPage != INVALID_PAGE
    ensures var q := s.threads[k].codeBackingPage;
            CallEffect(s, ThreadCancel(k)).pages == WithRefCount(s.pages, q, Decremented(s.pages[q].refCount))
  {
  }

  /** Slot k, and no other, has become free again. */
  lemma CancelledSlots(s: KState, c: KState, k: int)
    requires |c.threads| == |s.threads| && k == FirstReusable(s.threads, 0) != NULL && IsReusable(c.threads[k])
    requires forall i | 0 <= i < |s.threads| && i != k :: IsReusable(c.threads[i]) <==> IsReusable(s.threads[i])
    ensures FirstReusable(c.threads, 0) == k
  {
    SameReusable(s.threads, c.threads, 0);
  }

  lemma {:induction false} FreedPage(ps: seq<BackingPage>, q: nat, from: nat)
    requires from <= q < |ps| <= INVALID_PAGE && ps[q].refCount == 0
    ensures FindFreeBackingPage(ps, from) != INVALID_PAGE
    decreases |ps| - from
  {
    if ps[from].refCount == 0 {
    } else {
      FreedPage(ps, q, from + 1);
    }
  }

  /** The running thread runs from page p, but the count says that nobody holds it. */
  ghost predicate InUseButFree(s: KState, p: nat) {
    s.WF() && s.current != NULL && p < |s.pages| && s.Current().codeBackingPage == p && s.pages[p].refCount == 0
  }

  lemma InUseIsNotCounted(s: KState, p: nat)
    requires InUseButFree(s, p)
    ensures !Counted(s)
  {
    HoldersAtMost(s.threads, p);
    assert s.threads[s.current].codeBackingPage == p;
    assert !CountedAt(s, p);
  }

  /** By creating and cancelling threads within its rights, a thread that runs from a page can bring
      the count of that page to zero. */
  lemma {:induction false} CountCanWrap(s: KState, p: nat, k: int) returns (es: seq<Event>)
    requires CanLeak(s, p, k)
    ensures IsRun(s, es) && Run(s, es).exit.None?
    ensures InUseButFree(Run(s, es), p) && !Counted(Run(s, es))
    decreases 255 - s.pages[p].refCount as nat
  {
    LoadStep(s, p, k);
    var load := Calls(s, LOAD_FILE);
    var r := Step(s, load);
    if s.pages[p].refCount == 255 {
      es := [];
      InUseIsNotCounted(r, p);
    } else {
      CancelStep(s, r, p, k);
      var cancel := Calls(r, ThreadCancel(k));
      var rest := CountCanWrap(Step(r, cancel), p, k);
      RunFrom(r, cancel, rest);
      es := [cancel] + rest;
    }
    RunFrom(s, load, es);
    es := [load] + es;
  }

  // ---- From boot

  /** From a cold kernel with three slots and two pages, the setup thread and a program it loads can
      bring the count of a page in use to zero. */
  lemma BootCanWrap(s: KState, setup: int) returns (es: seq<Event>)
    requires IsCold(s) && |s.threads| >= 3 && |s.pages| >= 2
    ensures var b := Booted(s, BuiltIn(setup));
            IsRun(b, es) && Run(b, es).exit.None? && InUseButFree(Run(b, es), 0) && !Counted(Run(b, es))
  {
    var b := Booted(s, BuiltIn(setup));
    var load := BootRunsLoader(s, setup);
    LoaderCanLeak(Run(b, load));
    var rest := CountCanWrap(Run(b, load), 0, 2);
    RunOn(b, load, rest);
    es := load + rest;
  }

  lemma LoaderCanLeak(s: KState)
    requires LoaderRuns(s)
    ensures CanLeak(s, 0, 2)
  {
    assert FirstReusable(s.threads, 0) == FirstReusable(s.threads, 1) == FirstReusable(s.threads, 2) == 2;
    assert FindFreeBackingPage(s.pages, 0) == FindFreeBackingPage(s.pages, 1) == 1;
  }
}
