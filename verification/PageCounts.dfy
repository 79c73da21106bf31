/** Reference counts of backing pages: how they relate to the threads that hold a page. */
module PageCounts {
  import opened Basics
  import opened Threads
  import opened Scheduler
  import opened Lifecycle
  import opened Rings
  import opened Steps
  import opened CoreInvariant
  import opened Effects

  function One(b: bool): nat {
    if b then 1 else 0
  }

  /** The number of slots that hold page p. */
  function Holders(ts: seq<Thread>, p: nat): nat {
    if ts == [] then 0
    else Holders(ts[..|ts| - 1], p) + One(ts[|ts| - 1].codeBackingPage == p)
  }

  lemma {:induction false} HoldersUpdate(ts: seq<Thread>, i: nat, t: Thread, p: nat)
    requires i < |ts|
    ensures Holders(ts[i := t], p) + One(ts[i].codeBackingPage == p) == Holders(ts, p) + One(t.codeBackingPage == p)
  {
    var n := |ts| - 1;
    if i == n {
      assert ts[i := t][..n] == ts[..n];
    } else {
      HoldersUpdate(ts[..n], i, t, p);
      assert ts[i := t][..n] == ts[..n][i := t];
    }
  }

  lemma {:induction false} HoldersSame(ts: seq<Thread>, us: seq<Thread>, p: nat)
    requires |ts| == |us| && forall i | 0 <= i < |ts| :: ts[i].codeBackingPage == us[i].codeBackingPage
    ensures Holders(ts, p) == Holders(us, p)
  {
    if ts == [] {
    } else {
      HoldersSame(ts[..|ts| - 1], us[..|us| - 1], p);
    }
  }

  lemma {:induction false} HoldersAtMost(ts: seq<Thread>, p: nat)
    ensures Holders(ts, p) <= |ts|
    ensures (exists i | 0 <= i < |ts| :: ts[i].codeBackingPage == p) <==> Holders(ts, p) > 0
  {
    if ts == [] {
    } else {
      HoldersAtMost(ts[..|ts| - 1], p);
    }
  }

  ghost predicate CountedAt(s: KState, p: nat)
    requires p < |s.pages|
  {
    Holders(s.threads, p) <= s.pages[p].refCount as nat
  }

  /** Every page is counted at least once for each holder. */
  ghost predicate Counted(s: KState) {
    forall p | 0 <= p < |s.pages| :: CountedAt(s, p)
  }

  /** Every page is counted exactly once for each holder, and slots free for new threads hold none. */
  ghost predicate ExactlyCounted(s: KState) {
    && (forall p | 0 <= p < |s.pages| :: s.pages[p].refCount as nat == Holders(s.threads, p))
    && (forall i | 0 <= i < |s.threads| && IsReusable(s.threads[i]) :: s.threads[i].codeBackingPage == INVALID_PAGE)
  }

  /** A page handed out for a new program is held by nobody. */
  lemma FreePageIsUnheld(s: KState)
    requires s.WF() && Counted(s)
    ensures var p := FindFreeBackingPage(s.pages, 0);
            p != INVALID_PAGE ==> forall i | 0 <= i < |s.threads| :: s.threads[i].codeBackingPage != p
  {
    var p := FindFreeBackingPage(s.pages, 0);
    HoldersAtMost(s.threads, p);
    assert p != INVALID_PAGE ==> CountedAt(s, p);
  }

  // ---- One slot at a time

  /** Slot i's page becomes q, and the counts change by the same: page `up` gains a count and page
      `down` loses one. */
  ghost predicate Recounted(s: KState, r: KState, i: int, q: nat) {
    && 0 <= i < |s.threads| == |r.threads|
    && (forall k | 0 <= k < |s.threads| && k != i :: r.threads[k].codeBackingPage == s.threads[k].codeBackingPage)
    && r.threads[i].codeBackingPage == q
  }

  lemma RecountedHolders(s: KState, r: KState, i: int, q: nat, p: nat)
    requires Recounted(s, r, i, q)
    ensures Holders(r.threads, p) + One(s.threads[i].codeBackingPage == p) == Holders(s.threads, p) + One(q == p)
  {
    var mid := s.threads[i := r.threads[i]];
    HoldersUpdate(s.threads, i, r.threads[i], p);
    HoldersSame(mid, r.threads, p);
  }

  lemma SamePagesKeepCounts(s: KState, r: KState)
    requires |r.threads| == |s.threads| && |r.pages| == |s.pages|
    requires forall i | 0 <= i < |s.threads| :: r.threads[i].codeBackingPage == s.threads[i].codeBackingPage
    requires forall p | 0 <= p < |s.pages| :: r.pages[p].refCount == s.pages[p].refCount
    ensures Counted(s) ==> Counted(r)
    ensures ExactlyCounted(s)
            && (forall i | 0 <= i < |s.threads| && IsReusable(r.threads[i]) :: IsReusable(s.threads[i]))
            ==> ExactlyCounted(r)
  {
    forall p | 0 <= p < |s.pages|
      ensures Holders(r.threads, p) == Holders(s.threads, p)
    {
      HoldersSame(s.threads, r.threads, p);
    }
    if Counted(s) {
      forall p | 0 <= p < |r.pages|
        ensures CountedAt(r, p)
      {
        assert CountedAt(s, p);
      }
    }
  }

  // ---- Ending

  /** Slot i gives its page up. */
  ghost predicate Releases(s: KState, r: KState, i: int) {
    && Recounted(s, r, i, INVALID_PAGE)
    && var p := s.threads[i].codeBackingPage;
       r.pages == if p >= |s.pages| then s.pages else WithRefCount(s.pages, p, Decremented(s.pages[p].refCount))
  }

  lemma ReleaseKeepsCounts(s: KState, r: KState, i: int)
    requires s.WF() && Releases(s, r, i)
    ensures Counted(s) ==> Counted(r)
    ensures ExactlyCounted(s)
            && (forall k | 0 <= k < |s.threads| && k != i && IsReusable(r.threads[k]) :: IsReusable(s.threads[k]))
            ==> ExactlyCounted(r)
  {
    forall p | 0 <= p < |s.pages|
      ensures Counted(s) ==> CountedAt(r, p)
      ensures ExactlyCounted(s) ==> r.pages[p].refCount as nat == Holders(r.threads, p)
    {
      RecountedHolders(s, r, i, INVALID_PAGE, p);
      HoldersAtMost(s.threads, p);
      assert Counted(s) ==> CountedAt(s, p);
    }
  }

  // ---- Creating

  /** The running thread's page is counted as often as a uint8_t can tell. */
  predicate CountIsFull(s: KState)
    requires s.WF() && s.current != NULL
  {
    var p := s.Current().codeBackingPage;
    p != INVALID_PAGE && s.pages[p].refCount == 255
  }

  lemma AddNamedRecounts(s: KState, worker: int, name: Option<string>, args: ThreadArgs, remove: bv16)
    requires Core(s) && FirstReusable(s.threads, 0) != NULL
    ensures var r := AddNamedThread(s, worker, name, args, remove); var q := s.Current().codeBackingPage;
            && Recounted(s, r.0, r.1, q) && r.1 != s.current
            && IsReusable(s.threads[r.1]) && !IsReusable(r.0.threads[r.1])
            && r.0.pages == WithHolder(s.pages, q)
  {
  }

  /** Creating a thread keeps every page counted exactly when its creator's page has room for
      another count. */
  lemma CreationKeepsCountedIff(s: KState, worker: int, name: Option<string>, args: ThreadArgs, remove: bv16)
    requires Core(s) && Counted(s) && FirstReusable(s.threads, 0) != NULL
    ensures Counted(AddNamedThread(s, worker, name, args, remove).0) <==> !CountIsFull(s)
  {
    var r := AddNamedThread(s, worker, name, args, remove);
    var q := s.Current().codeBackingPage;
    AddNamedRecounts(s, worker, name, args, remove);
    forall p | 0 <= p < |s.pages|
      ensures Holders(r.0.threads, p) <= Holders(s.threads, p) + One(q == p)
      ensures p != q || !CountIsFull(s) ==> CountedAt(r.0, p)
    {
      RecountedHolders(s, r.0, r.1, q, p);
      assert CountedAt(s, p);
    }
    if CountIsFull(s) {
      HoldersAtMost(r.0.threads, q);
      assert r.0.threads[r.1].codeBackingPage == q;
      assert !CountedAt(r.0, q);
    }
  }

  lemma AddFromFileRecounts(s: KState, filename: string, remove: bv16)
    requires Core(s) && FirstReusable(s.threads, 0) != NULL && FindFreeBackingPage(s.pages, 0) != INVALID_PAGE
    ensures var r := AddThreadFromFile(s, filename, remove); var q := FindFreeBackingPage(s.pages, 0);
            && Recounted(s, r.0, r.1, q) && r.1 == FirstReusable(s.threads, 0)
            && IsReusable(s.threads[r.1]) && !IsReusable(r.0.threads[r.1])
            && r.0.pages == WithHolder(WithHolder(s.pages, s.Current().codeBackingPage), q)
  {
    var p := FindFreeBackingPage(s.pages, 0);
    AddNamedRecounts(s, LOAD_ELF, Some("loader"), ThreadArgs(p, remove as int, 0, 0), 0);
  }

  /** Loading a file keeps every page counted under the same condition. */
  lemma LoadingKeepsCountedIff(s: KState, filename: string, remove: bv16)
    requires Core(s) && Counted(s) && FirstReusable(s.threads, 0) != NULL
    requires FindFreeBackingPage(s.pages, 0) != INVALID_PAGE
    ensures Counted(AddThreadFromFile(s, filename, remove).0) <==> !CountIsFull(s)
  {
    var r := AddThreadFromFile(s, filename, remove);
    var q, held := FindFreeBackingPage(s.pages, 0), s.Current().codeBackingPage;
    AddFromFileRecounts(s, filename, remove);
    FreePageIsUnheld(s);
    assert held != q;
    forall p | 0 <= p < |s.pages|
      ensures p != held || !CountIsFull(s) ==> CountedAt(r.0, p)
    {
      RecountedHolders(s, r.0, r.1, q, p);
      HoldersAtMost(s.threads, p);
      assert CountedAt(s, p);
    }
    if CountIsFull(s) {
      HoldersAtMost(r.0.threads, held);
      assert r.0.threads[s.current].codeBackingPage == held;
      assert !CountedAt(r.0, held);
    }
  }

  /** A slot that gets page q, which is then counted once more, keeps the counts exact. */
  lemma HoldingKeepsExact(s: KState, r: KState, i: int, q: nat)
    requires s.WF() && ExactlyCounted(s) && |s.threads| <= 255 && Recounted(s, r, i, q) && IsReusable(s.threads[i])
    requires (q < |s.pages| || q == INVALID_PAGE) && r.pages == WithHolder(s.pages, q)
    requires forall k | 0 <= k < |s.threads| && IsReusable(r.threads[k]) :: k != i && IsReusable(s.threads[k])
    ensures ExactlyCounted(r)
  {
    forall p | 0 <= p < |s.pages|
      ensures r.pages[p].refCount as nat == Holders(r.threads, p)
    {
      RecountedHolders(s, r, i, q, p);
      HoldersAtMost(r.threads, p);
    }
  }

  lemma OnlyNewSlotIsTaken(s: KState, r: KState, i: int)
    requires OnlyAdds(s, r, i) && 0 <= i < |s.threads| && !IsReusable(r.threads[i])
    ensures forall k | 0 <= k < |s.threads| && IsReusable(r.threads[k]) :: k != i && IsReusable(s.threads[k])
  {
  }

  lemma CreationKeepsExact(s: KState, worker: int, name: Option<string>, args: ThreadArgs, remove: bv16)
    requires Core(s) && ExactlyCounted(s) && |s.threads| <= 255
    ensures ExactlyCounted(AddNamedThread(s, worker, name, args, remove).0)
  {
    if FirstReusable(s.threads, 0) != NULL {
      var r := AddNamedThread(s, worker, name, args, remove);
      AddNamedRecounts(s, worker, name, args, remove);
      AddNamedOnlyAdds(s, worker, name, args, remove);
      OnlyNewSlotIsTaken(s, r.0, r.1);
      HoldingKeepsExact(s, r.0, r.1, s.Current().codeBackingPage);
    }
  }

  /** A file loaded by a thread without a page of its own keeps the counts exact, and so does a refusal. */
  lemma LoadingKeepsExact(s: KState, filename: string, remove: bv16)
    requires Core(s) && ExactlyCounted(s) && |s.threads| <= 255
    requires || s.Current().codeBackingPage == INVALID_PAGE
             || FirstReusable(s.threads, 0) == NULL || FindFreeBackingPage(s.pages, 0) == INVALID_PAGE
    ensures ExactlyCounted(AddThreadFromFile(s, filename, remove).0)
  {
    var q := FindFreeBackingPage(s.pages, 0);
    if q != INVALID_PAGE && FirstReusable(s.threads, 0) != NULL {
      var r := AddThreadFromFile(s, filename, remove);
      AddFromFileRecounts(s, filename, remove);
      AddFromFileOnlyAdds(s, filename, remove);
      OnlyNewSlotIsTaken(s, r.0, r.1);
      HoldingKeepsExact(s, r.0, r.1, q);
    } else {
      RefusedLoadIsNone(s, filename, remove);
    }
  }

  lemma RefusedLoadIsNone(s: KState, filename: string, remove: bv16)
    requires Core(s) && (FirstReusable(s.threads, 0) == NULL || FindFreeBackingPage(s.pages, 0) == INVALID_PAGE)
    ensures var r := AddThreadFromFile(s, filename, remove).0; r.threads == s.threads && r.pages == s.pages
  {
  }

  // ---- Steps

  /** The call creates a thread. */
  predicate Creates(s: KState, call: Call)
    requires s.WF()
  {
    && call.AddThread? && call.flags.Some? && !HasNoPermission(s, TPERM_CREATE) && FirstReusable(s.threads, 0) != NULL
    && (call.flags.value.isFile ==> FindFreeBackingPage(s.pages, 0) != INVALID_PAGE)
  }

  /** The event creates a thread although the count of its creator's page is full. */
  ghost predicate Overfills(s: KState, e: Event)
    requires s.WF() && s.current != NULL
  {
    IsCall(e) && Creates(s, e.call) && CountIsFull(s)
  }

  /** The event loads a file for a thread that runs from a page. */
  ghost predicate PagedLoad(s: KState, e: Event)
    requires s.WF() && s.current != NULL
  {
    IsCall(e) && Creates(s, e.call) && e.call.flags.value.isFile && s.Current().codeBackingPage != INVALID_PAGE
  }

  /** What creating a thread by a call does to the counts. */
  ghost predicate CountsAfter(s: KState, call: Call, r: KState)
    requires s.WF() && s.current != NULL
  {
    && (Counted(s) ==> (Counted(r) <==> !(Creates(s, call) && CountIsFull(s))))
    && (ExactlyCounted(s) && |s.threads| <= 255
        && !(Creates(s, call) && call.flags.value.isFile && s.Current().codeBackingPage != INVALID_PAGE)
        ==> ExactlyCounted(r))
  }

  lemma LoadCallKeepsCounts(s: KState, call: Call)
    requires Core(s) && call.AddThread? && call.flags.Some? && call.flags.value.isFile
    requires !HasNoPermission(s, TPERM_CREATE)
    ensures CountsAfter(s, call, AddThreadFromFile(s, call.filename, call.flags.value.removePermissions).0)
  {
    var remove := call.flags.value.removePermissions;
    if Creates(s, call) {
      if Counted(s) {
        LoadingKeepsCountedIff(s, call.filename, remove);
      }
      if ExactlyCounted(s) && |s.threads| <= 255 && s.Current().codeBackingPage == INVALID_PAGE {
        LoadingKeepsExact(s, call.filename, remove);
      }
    } else {
      RefusedLoadKeepsCounts(s, call.filename, remove);
    }
  }

  lemma RefusedLoadKeepsCounts(s: KState, filename: string, remove: bv16)
    requires Core(s) && (FirstReusable(s.threads, 0) == NULL || FindFreeBackingPage(s.pages, 0) == INVALID_PAGE)
    ensures var r := AddThreadFromFile(s, filename, remove).0;
            (Counted(s) ==> Counted(r)) && (ExactlyCounted(s) ==> ExactlyCounted(r))
  {
    RefusedLoadIsNone(s, filename, remove);
    SamePagesKeepCounts(s, AddThreadFromFile(s, filename, remove).0);
  }

  lemma NamedCallKeepsCounts(s: KState, call: Call, args: ThreadArgs)
    requires Core(s) && call.AddThread? && call.flags.Some? && !call.flags.value.isFile
    requires !HasNoPermission(s, TPERM_CREATE)
    ensures CountsAfter(s, call, AddNamedThread(s, call.worker, call.name, args, call.flags.value.removePermissions).0)
  {
    var remove := call.flags.value.removePermissions;
    if Counted(s) && FirstReusable(s.threads, 0) != NULL {
      CreationKeepsCountedIff(s, call.worker, call.name, args, remove);
    }
    if ExactlyCounted(s) && |s.threads| <= 255 {
      CreationKeepsExact(s, call.worker, call.name, args, remove);
    }
  }

  lemma RefusedCallKeepsCounts(s: KState, call: Call)
    requires Core(s) && call.AddThread? && (call.flags.None? || HasNoPermission(s, TPERM_CREATE))
    ensures CountsAfter(s, call, CallEffect(s, call))
  {
    SamePagesKeepCounts(s, CallEffect(s, call));
  }

  lemma AddCallKeepsCounts(s: KState, call: Call)
    requires Core(s) && call.AddThread?
    ensures CountsAfter(s, call, CallEffect(s, call))
  {
    if call.flags.None? || HasNoPermission(s, TPERM_CREATE) {
      RefusedCallKeepsCounts(s, call);
    } else if call.flags.value.isFile {
      LoadCallKeepsCounts(s, call);
    } else {
      NamedCallKeepsCounts(s, call, if call.args.Some? then call.args.value else ThreadArgs(0, 0, 0, 0));
    }
  }

  lemma CancelKeepsCounts(s: KState, tid: int)
    requires Core(s)
    ensures var r := CallEffect(s, ThreadCancel(tid));
            (Counted(s) ==> Counted(r)) && (ExactlyCounted(s) ==> ExactlyCounted(r))
  {
    var i := if tid == CURRENT_THREAD then s.Current().id else tid;
    CancelChangesSlot(s, tid);
    if IsValidThread(s.threads, i) {
      ReleaseKeepsCounts(s, CallEffect(s, ThreadCancel(tid)), i);
    }
  }

  lemma CallKeepsCounts(s: KState, call: Call)
    requires Core(s) && CallIsUsable(s, call)
    ensures CountsAfter(s, call, CallEffect(s, call))
  {
    if call.AddThread? {
      AddCallKeepsCounts(s, call);
    } else if call.ThreadCancel? {
      CancelKeepsCounts(s, call.tid);
    } else {
      OtherCallKeepsPages(s, call);
      HoldingsKeepCounts(s, CallEffect(s, call));
    }
  }

  /** No other call changes who holds a page, a count, or which slots are free. */
  lemma OtherCallKeepsPages(s: KState, call: Call)
    requires Core(s) && CallIsUsable(s, call) && !call.AddThread? && !call.ThreadCancel?
    ensures KeepsHoldings(s, CallEffect(s, call))
  {
    CallEffectChanges(s, call);
    if call.Restart? {
      RestartKeepsHoldings(s, CallEffect(s, call));
    } else if call.SetThreadProperty? {
      PropertiesKeepHoldings(s, CallEffect(s, call));
    } else {
      PlainCallKeepsHoldings(s, call, CallEffect(s, call));
    }
  }

  ghost predicate KeepsHoldings(s: KState, r: KState) {
    && |r.threads| == |s.threads| && r.pages == s.pages
    && (forall i | 0 <= i < |s.threads| :: r.threads[i].codeBackingPage == s.threads[i].codeBackingPage)
    && (forall i | 0 <= i < |s.threads| && IsReusable(r.threads[i]) :: IsReusable(s.threads[i]))
  }

  lemma RestartKeepsHoldings(s: KState, r: KState)
    requires s.WF() && s.current != NULL && OnlyRestarts(s, r)
    ensures KeepsHoldings(s, r)
  {
  }

  lemma PropertiesKeepHoldings(s: KState, r: KState)
    requires OnlySetsProperties(s, r)
    ensures KeepsHoldings(s, r)
  {
  }

  lemma PlainCallKeepsHoldings(s: KState, call: Call, r: KState)
    requires OnlyPlainChanges(s, call, r)
    ensures KeepsHoldings(s, r)
  {
  }

  lemma ExitReleases(s: KState, e: Event)
    requires Core(s) && e.ThreadExit?
    ensures Releases(s, Effect(s, e), s.current)
    ensures forall k | 0 <= k < |s.threads| && k != s.current :: Effect(s, e).threads[k] == s.threads[k]
  {
  }

  lemma LoadKeepsCounts(s: KState, e: Event)
    requires Core(s) && e.LoadImage? && s.Current().codeBackingPage != INVALID_PAGE
    ensures Counted(s) ==> Counted(Effect(s, e))
    ensures ExactlyCounted(s) ==> ExactlyCounted(Effect(s, e))
  {
    SamePagesKeepCounts(s, Effect(s, e));
  }

  lemma NonCallKeepsCounts(s: KState, e: Event)
    requires Core(s) && (e.LoadImage? ==> s.Current().codeBackingPage != INVALID_PAGE)
    requires e.Syscall? ==> !e.stackOk && CallIsUsable(s, e.call)
    ensures Counted(s) ==> Counted(Effect(s, e))
    ensures ExactlyCounted(s) && !e.Syscall? ==> ExactlyCounted(Effect(s, e))
  {
    if e.ThreadExit? {
      ExitReleases(s, e);
      ReleaseKeepsCounts(s, Effect(s, e), s.current);
    } else if e.LoadImage? {
      LoadKeepsCounts(s, e);
    } else {
      SamePagesKeepCounts(s, Effect(s, e));
    }
  }

  lemma EffectKeepsCounts(s: KState, e: Event)
    requires Core(s) && (e.LoadImage? ==> s.Current().codeBackingPage != INVALID_PAGE)
    requires e.Syscall? ==> CallIsUsable(s, e.call)
    ensures Counted(s) ==> (Counted(Effect(s, e)) <==> !Overfills(s, e))
    ensures ExactlyCounted(s) && |s.threads| <= 255 && !PagedLoad(s, e) && (e.Syscall? ==> e.stackOk)
            ==> ExactlyCounted(Effect(s, e))
  {
    if e.Syscall? && e.stackOk {
      CallKeepsCounts(s, e.call);
    } else {
      NonCallKeepsCounts(s, e);
    }
  }

  lemma HoldingsKeepCounts(s: KState, r: KState)
    requires KeepsHoldings(s, r)
    ensures (Counted(s) ==> Counted(r)) && (ExactlyCounted(s) ==> ExactlyCounted(r))
  {
    SamePagesKeepCounts(s, r);
  }

  lemma TouchKeepsCounts(s: KState, r: KState)
    requires OnlyTouched(s, r)
    ensures Counted(s) <==> Counted(r)
    ensures ExactlyCounted(s) ==> ExactlyCounted(r)
  {
    SamePagesKeepCounts(s, r);
    SamePagesKeepCounts(r, s);
  }

  lemma EntryKeepsConditions(s: KState, e: Event)
    requires Core(s)
    ensures Overfills(Entered(s, e), e) <==> Overfills(s, e)
    ensures PagedLoad(Entered(s, e), e) <==> PagedLoad(s, e)
    ensures |Entered(s, e).threads| == |s.threads|
  {
    EnteredTouches(s, e);
    EnteredKeepsCore(s, e);
    SameReusable(s.threads, Entered(s, e).threads, 0);
  }

  lemma StepKeepsCounts(s: KState, e: Event)
    requires Core(s) && Allowed(s, e) && Step(s, e).exit.None?
    ensures Counted(s) ==> (Counted(Step(s, e)) <==> !Overfills(s, e))
    ensures ExactlyCounted(s) && |s.threads| <= 255 && !PagedLoad(s, e) && (e.Syscall? ==> e.stackOk)
            ==> ExactlyCounted(Step(s, e))
  {
    var entered := Entered(s, e);
    EnteredTouches(s, e);
    EnteredKeepsCore(s, e);
    EntryKeepsConditions(s, e);
    TouchKeepsCounts(s, entered);
    EffectKeepsCounts(entered, e);
    StepTouches(s, e);
    TouchKeepsCounts(Effect(entered, e), Step(s, e));
  }

  lemma BootCounts(s: KState, start: StartUp)
    requires IsCold(s) && Booted(s, start).exit.None?
    ensures Counted(Booted(s, start)) && ExactlyCounted(Booted(s, start))
  {
    BootHoldsOnlyFirstPage(s, start);
    OnlyFirstHoldsIsCounted(Booted(s, start));
  }

  lemma OnlyFirstHoldsIsCounted(r: KState)
    requires r.threads != [] && !IsReusable(r.threads[0])
    requires forall i | 0 < i < |r.threads| :: r.threads[i].codeBackingPage == INVALID_PAGE
    requires forall p | 0 <= p < |r.pages| :: r.pages[p].refCount as nat == One(r.threads[0].codeBackingPage == p)
    requires |r.pages| <= INVALID_PAGE
    ensures Counted(r) && ExactlyCounted(r)
  {
    forall p | 0 <= p < |r.pages|
      ensures r.pages[p].refCount as nat == Holders(r.threads, p)
    {
      OnlySlotHolds(r.threads, 0, p);
    }
  }

  /** If no slot but i may hold page p, the page has one holder or none. */
  lemma OnlySlotHolds(ts: seq<Thread>, i: nat, p: nat)
    requires i < |ts| && forall k | 0 <= k < |ts| && k != i :: ts[k].codeBackingPage != p
    ensures Holders(ts, p) == One(ts[i].codeBackingPage == p)
  {
    var none := ts[i].(codeBackingPage := p + 1);
    HoldersUpdate(ts, i, none, p);
    HoldersAtMost(ts[i := none], p);
  }

  lemma FirstThreadHoldsOnlyItsPage(s: KState, start: StartUp)
    requires IsCold(s) && WithFirstThread(s, start).1 != INVALID_THREAD
    ensures var x := WithFirstThread(s, start).0;
            && |x.threads| == |s.threads| && |x.pages| == |s.pages| && !IsReusable(x.threads[0])
            && (forall i | 0 < i < |x.threads| :: x.threads[i].codeBackingPage == INVALID_PAGE)
            && (forall p | 0 <= p < |x.pages| :: x.pages[p].refCount as nat == One(x.threads[0].codeBackingPage == p))
  {
    FirstThreadIs(s, start);
    assert forall i | 0 <= i < |s.threads| :: s.threads[i].codeBackingPage == INVALID_PAGE;
  }

  lemma ResumingKeepsHolders(x: KState)
    requires x.WF() && x.current == NULL && CanSchedule(x.threads, 0)
    ensures var r := Resumed(SwitchTo(x, 0));
            && |r.threads| == |x.threads| && |r.pages| == |x.pages|
            && (forall i | 0 <= i < |x.threads| :: r.threads[i].codeBackingPage == x.threads[i].codeBackingPage)
            && (forall i | 0 <= i < |x.threads| :: IsReusable(r.threads[i]) ==> IsReusable(x.threads[i]))
            && (forall p | 0 <= p < |x.pages| :: r.pages[p].refCount == x.pages[p].refCount)
  {
  }

  lemma BootHoldsOnlyFirstPage(s: KState, start: StartUp)
    requires IsCold(s) && Booted(s, start).exit.None?
    ensures var r := Booted(s, start);
            && |r.threads| == |s.threads| && |r.pages| == |s.pages|
            && (forall i | 0 < i < |r.threads| :: r.threads[i].codeBackingPage == INVALID_PAGE)
            && !IsReusable(r.threads[0])
            && (forall p | 0 <= p < |r.pages| :: r.pages[p].refCount as nat == One(r.threads[0].codeBackingPage == p))
  {
    BootEstablishesCore(s, start);
    FirstThreadIs(s, start);
    FirstThreadIsFound(s, start);
    FirstThreadHoldsOnlyItsPage(s, start);
    ResumingKeepsHolders(WithFirstThread(s, start).0);
  }

  // ---- Runs

  /** No thread is created by a thread whose page's count is full. */
  ghost predicate NeverOverfills(s: KState, es: seq<Event>)
    requires IsRun(s, es)
    decreases |es|
  {
    es == [] || (Allowed(s, es[0]) && !Overfills(s, es[0]) && NeverOverfills(Step(s, es[0]), es[1..]))
  }

  /** After each step of the run every page is counted at least once for each holder. */
  ghost predicate AlwaysCounted(s: KState, es: seq<Event>)
    requires IsRun(s, es)
    decreases |es|
  {
    Counted(s) && (es == [] || AlwaysCounted(Step(s, es[0]), es[1..]))
  }

  /** No stack error, and no file loaded by a thread that runs from a page. */
  ghost predicate LoadsCleanly(s: KState, es: seq<Event>)
    requires IsRun(s, es)
    decreases |es|
  {
    es == [] || ((es[0].Syscall? ==> es[0].stackOk) && !PagedLoad(s, es[0]) && LoadsCleanly(Step(s, es[0]), es[1..]))
  }

  /** All along a run no page's count is below the number of its holders, so that no page in use is
      handed out, exactly if no thread is created while the count of its creator's page is full. */
  lemma {:induction false} EveryRunCounts(s: KState, es: seq<Event>)
    requires Core(s) && Counted(s) && IsRun(s, es) && Run(s, es).exit.None?
    ensures AlwaysCounted(s, es) <==> NeverOverfills(s, es)
    decreases |es|
  {
    if es == [] {
    } else {
      var r := Step(s, es[0]);
      RunGoesOn(s, es);
      StepKeepsCore(s, es[0]);
      StepKeepsCounts(s, es[0]);
      if Counted(r) {
        EveryRunCounts(r, es[1..]);
      }
    }
  }

  /** In clean runs with at most 255 threads the counts are exact, and so never full. */
  lemma {:induction false} CleanRunsCountExactly(s: KState, es: seq<Event>)
    requires Core(s) && ExactlyCounted(s) && |s.threads| <= 255
    requires IsRun(s, es) && Run(s, es).exit.None? && LoadsCleanly(s, es)
    ensures ExactlyCounted(Run(s, es))
    decreases |es|
  {
    if es == [] {
    } else {
      var r := Step(s, es[0]);
      RunGoesOn(s, es);
      StepKeepsCore(s, es[0]);
      StepKeepsCounts(s, es[0]);
      StepKeepsThreadCount(s, es[0]);
      CleanRunsCountExactly(r, es[1..]);
    }
  }
}
