/**
 The kernel itself: the globals of src/kernel/thread.c and the functions that change them in place.
 Each method is proved to compute what the model of the same name says about the whole state.
 */
module KernelObject {
  import opened Basics
  import opened BlockTags
  import opened Allocator
  import opened Threads
  import opened Scheduler
  import opened Lifecycle
  import opened Rings
  import opened Steps

  /** The record of a slot that has never held a thread. */
  function EmptySlot(stackEnd: int): Thread {
    var noArgs := ThreadArgs(0, 0, 0, 0);
    var blank := Ring(seq(QUEUE_SIZE, _ => Message(0, 0)), 0, 0, false);
    InitThread(Thread([], Init, 0, {}, INVALID_THREAD, "", 0, noArgs, blank, NULL, NULL, 0, 0, INVALID_PAGE, stackEnd),
               INVALID_THREAD, None, 0, noArgs, 0)
  }

  /** A kernel of empty slots, unused pages and free blocks is cold. */
  lemma EmptyIsCold(s: KState)
    requires s.threads != [] && |s.pages| <= INVALID_PAGE && s.current == NULL && s.next == NULL && s.exit.None?
    requires forall i | 0 <= i < |s.threads| :: s.threads[i] == EmptySlot(s.threads[i].stackEnd)
    requires forall p | 0 <= p < |s.pages| :: s.pages[p] == BackingPage(0, [])
    requires forall c | 0 <= c < |s.condVars| :: InBounds(s.condVars[c], |s.threads|)
    requires forall b | 0 <= b < |s.heap| :: s.heap[b] == BlockTag(0, 0)
    ensures IsCold(s)
  {
    forall i | 0 <= i < |s.threads|
      ensures s.threads[i] == InitThread(s.threads[i], INVALID_THREAD, None, 0, ThreadArgs(0, 0, 0, 0), 0)
      ensures s.threads[i].codeBackingPage == INVALID_PAGE
    {
      EmptyIsInitial(s.threads[i].stackEnd);
    }
  }

  lemma EmptyIsInitial(stackEnd: int)
    ensures var t := EmptySlot(stackEnd);
            && t == InitThread(t, INVALID_THREAD, None, 0, ThreadArgs(0, 0, 0, 0), 0)
            && t.codeBackingPage == INVALID_PAGE && t.stackEnd == stackEnd
  {
  }

  /** Sizes are size_t values, and a reallocation reads only inside the heap. */
  ghost predicate HasMachineArguments(s: KState, call: Call)
    requires s.WF()
  {
    match call
    case Malloc(size) => size <= s.layout.sizeMax
    case Realloc(ptr, size) =>
      && size <= s.layout.sizeMax
      && (UsablePtr(s.layout, ptr) ==>
            CopyStaysInside(s.heap, s.layout, !HasNoPermission(s, TPERM_ALLOC), ThreadId(s), ptr, size))
    case _ => true
  }

  /** The state s in which a call is handled, as against the one at the entry: at most the caller's
      name and id are hidden. */
  ghost predicate IsEntered(before: KState, s: KState) {
    && before.WF() && s.WF() && before.current == s.current != NULL && |before.threads| == |s.threads|
    && before.config == s.config && before.info == s.info && |before.Current().frames| == |s.Current().frames|
  }

  lemma EnteredForCall(before: KState, s: KState, call: Call)
    requires IsEntered(before, s) && CallIsUsable(s, call) && HasMachineArguments(s, call)
    ensures var x := WithErrNoForCall(s);
            && x.WF() && x.current == s.current && CallIsUsable(x, call) && HasMachineArguments(x, call)
            && LogsErrNo(before) == LogsErrNo(s) && before.info.errNo == s.info.errNo
            && |x.threads| == |s.threads| && x.Current() == s.Current()
  {
  }

  class Kernel {
    const allThreads: array<Thread>
    var currentThread: int
    var nextThread: int
    var userThreadInfo: UserThreadInfo
    var kernelConfig: bv32
    const codeBackingPages: array<BackingPage>
    var codePage: Page
    const condVars: array<ConditionVariable>
    const heap: Heap
    var cpu: Frame
    var exited: Option<int>

    /** What the C start-up code leaves: every slot initialised with no id, and everything free. */
    constructor (heap: Heap, stackEnds: seq<int>, numPages: nat, numCondVars: nat)
      requires heap.Valid() && forall b | 0 <= b < heap.blockTags.Length :: heap.blockTags[b] == BlockTag(0, 0)
      requires 1 <= |stackEnds| && numPages <= INVALID_PAGE
      ensures Valid() && IsCold(State())
      ensures this.heap == heap && allThreads.Length == |stackEnds| && codeBackingPages.Length == numPages
      ensures forall i | 0 <= i < |stackEnds| :: allThreads[i].stackEnd == stackEnds[i]
      ensures fresh(allThreads) && fresh(codeBackingPages) && fresh(condVars)
    {
      this.heap := heap;
      var n := |stackEnds|;
      allThreads := new Thread[n](i requires 0 <= i < |stackEnds| => EmptySlot(stackEnds[i]));
      codeBackingPages := new BackingPage[numPages](_ => BackingPage(0, []));
      condVars := new ConditionVariable[numCondVars](_ => ConditionVariable(seq(n, _ => INVALID_THREAD), 0, 0, false));
      currentThread, nextThread, exited := NULL, NULL, None;
      userThreadInfo, kernelConfig := UserThreadInfo(INVALID_THREAD, "", 0, 0), 0;
      codePage, cpu := [], Frame(0, 0, 0, 0, 0);
      new;
      forall i | 0 <= i < n
        ensures allThreads[i] == EmptySlot(stackEnds[i]) && allThreads[i].stackEnd == stackEnds[i]
      {
        EmptyIsInitial(stackEnds[i]);
      }
      EmptyIsCold(State());
    }

    /** The whole kernel as a value. */
    ghost function State(): KState
      reads this, allThreads, codeBackingPages, condVars, heap.blockTags
    {
      KState(allThreads[..], currentThread, nextThread, userThreadInfo, kernelConfig, codeBackingPages[..], codePage,
             condVars[..], heap.blockTags[..], heap.layout, cpu, exited)
    }

    ghost predicate Valid()
      reads this, allThreads, codeBackingPages, condVars, heap.blockTags
    {
      heap.Valid() && State().WF()
    }

    predicate IsValid(tid: int)
      reads allThreads
      ensures IsValid(tid) == IsValidThread(allThreads[..], tid)
    {
      0 <= tid < allThreads.Length && allThreads[tid].id != INVALID_THREAD
    }

    predicate IsSchedulable(tid: int)
      reads allThreads
      ensures IsSchedulable(tid) == CanSchedule(allThreads[..], tid)
    {
      IsValid(tid)
      && (allThreads[tid].state == Suspended || allThreads[tid].state == Init || allThreads[tid].state == Running)
    }

    function GetThreadId(): int
      requires NULL <= currentThread < allThreads.Length
      reads this`currentThread, allThreads
    {
      if currentThread != NULL then allThreads[currentThread].id else INVALID_THREAD
    }

    predicate LacksPermission(permission: bv16)
      requires NULL <= currentThread < allThreads.Length
      reads this`currentThread, allThreads
    {
      currentThread != NULL && allThreads[currentThread].permissions & permission == 0
    }

    method SetErrNo(e: int)
      requires Valid()
      modifies this`userThreadInfo
      ensures Valid() && State() == old(State()).WithErrNo(e)
    {
      userThreadInfo := userThreadInfo.(errNo := e);
    }

    // ---- src/kernel/thread.c: the scheduler

    method NextPossibleThreadIdx() returns (start: int)
      requires Valid()
      ensures start == SearchStart(allThreads[..], currentThread)
    {
      if currentThread != NULL {
        var curr := allThreads[currentThread];
        if IsSchedulable(curr.child) {
          return curr.child;
        }
        if IsSchedulable(curr.parent) {
          return curr.parent;
        }
        return currentThread + 1;
      }
      return 0;
    }

    method ChooseNext() returns (chosen: int)
      requires Valid()
      modifies this`exited
      ensures Valid() && chosen == ChooseNextThread(old(State()).threads, currentThread)
      ensures State() == if chosen != NULL && allThreads[chosen].id != chosen then old(State()).Exit(1)
                         else old(State())
    {
      var start := NextPossibleThreadIdx();
      ghost var ts := allThreads[..];
      var idx := start;
      while idx < start + allThreads.Length
        invariant 0 <= start <= idx <= start + |ts|
        invariant FirstSchedulable(ts, start, |ts|) == FirstSchedulable(ts, idx, start + |ts| - idx)
        invariant exited == old(exited)
      {
        var wrapped := idx % allThreads.Length;
        if IsSchedulable(wrapped) {
          if allThreads[wrapped].id != wrapped {
            exited := Some(1);
          }
          return wrapped;
        }
        idx := idx + 1;
      }
      return NULL;
    }

    method UpdateUserInfo(i: int)
      requires Valid() && 0 <= i < allThreads.Length
      modifies this`userThreadInfo, allThreads
      ensures Valid() && State() == UpdateUserThreadInfo(old(State()), i)
    {
      if currentThread != NULL {
        allThreads[currentThread] := allThreads[currentThread].(errNo := userThreadInfo.errNo);
      }
      var t := allThreads[i];
      userThreadInfo := UserThreadInfo(t.id, t.name, kernelConfig, t.errNo);
    }

    /** Saves the outgoing thread's code page and brings in the incoming thread's.  Without an incoming
        thread it brings in the outgoing thread's own page, which a restart has replaced. */
    method SwapPages(from: int, to: int)
      requires Valid() && NULL <= from < allThreads.Length && NULL <= to < allThreads.Length
      requires to == NULL && from != NULL ==> allThreads[from].codeBackingPage != INVALID_PAGE
      modifies this`codePage, codeBackingPages
      ensures Valid()
      ensures var swapped := if from == to then (old(codeBackingPages[..]), old(codePage))
                             else if to == NULL then
                               (old(codeBackingPages[..]), old(codeBackingPages[allThreads[from].codeBackingPage].data))
                             else
                               SwapPagedThreads(old(codeBackingPages[..]), old(codePage),
                                                PageOf(allThreads[..], from), PageOf(allThreads[..], to));
              State() == old(State()).(pages := swapped.0, codePage := swapped.1)
    {
      if from == to {
        return;
      }
      if from != NULL && to == NULL {
        codePage := codeBackingPages[allThreads[from].codeBackingPage].data;
        return;
      }
      if from != NULL {
        var out := allThreads[from].codeBackingPage;
        if out != INVALID_PAGE {
          codeBackingPages[out] := codeBackingPages[out].(data := codePage);
        }
      }
      var into := allThreads[to].codeBackingPage;
      if into != INVALID_PAGE {
        codePage := codeBackingPages[into].data;
      }
    }

    // ---- src/kernel/signal_handling.c

    method LowestSignal(pending: SignalMask) returns (signal: int)
      ensures signal == NextSignal(pending, 0)
    {
      var i := 0;
      while i < 32
        invariant 0 <= i <= 32 && NextSignal(pending, 0) == NextSignal(pending, i)
      {
        if i in pending {
          return i + 1;
        }
        i := i + 1;
      }
      return 0;
    }

    method CheckThreadSignals(i: int)
      requires Valid() && 0 <= i < allThreads.Length
      modifies allThreads
      ensures Valid() && State() == old(State()).WithThread(i, CheckSignals(old(allThreads[i])))
    {
      var t := allThreads[i];
      var frames, pending := t.frames, t.pendingSignals;
      if frames != [] && frames[|frames| - 1].pc == HANDLER_END {
        frames := frames[..|frames| - 1];
      }
      if pending != {} {
        var signal := LowestSignal(pending);
        if t.signalHandler != 0 {
          var sp := StackPtr(frames, t.stackEnd) - CONTEXT_SIZE;
          frames := frames + [Frame(sp, HANDLER_WRAPPER, signal, t.signalHandler, 0)];
          pending := pending - {signal - 1};
        } else {
          pending := {};
        }
      }
      assert frames == CheckedFrames(t.frames, t.pendingSignals, t.signalHandler, t.stackEnd);
      assert pending == CheckedPending(t.pendingSignals, t.signalHandler);
      allThreads[i] := t.(frames := frames, pendingSignals := pending);
      assert allThreads[..] == old(allThreads[..])[i := CheckSignals(t)];
    }

    // ---- src/kernel/thread.c: do_scheduler

    method Schedule()
      requires Valid() && exited.None?
      modifies this, allThreads, codeBackingPages
      ensures Valid() && State() == DoScheduler(old(State()))
    {
      ghost var s := State();
      PickNext();
      if exited.None? {
        FinishSwitch(s);
      }
    }

    method PickNext()
      requires Valid() && exited.None?
      modifies this
      ensures Valid()
      ensures var s := old(State());
              State() == if FindsInconsistentSlot(s) then s.Exit(1)
                         else if Target(s) == NULL then s.Exit(0) else s.(next := Target(s))
    {
      if nextThread == NULL {
        nextThread := ChooseNext();
        if exited.Some? {
          nextThread := NULL;
          return;
        }
      }
      if nextThread == NULL {
        if IsSchedulable(GetThreadId()) {
          nextThread := currentThread;
        } else {
          exited := Some(0);
        }
      }
    }

    /** The running thread is parked, unless it was cancelled or waits, and the next one started. */
    method StartNext()
      requires Valid() && nextThread != NULL
      modifies allThreads
      ensures Valid() && State() == old(State()).(threads := Started(old(allThreads[..]), currentThread, nextThread))
    {
      if currentThread != NULL && allThreads[currentThread].state == Running {
        allThreads[currentThread] := allThreads[currentThread].(state := Suspended);
      }
      allThreads[nextThread] := allThreads[nextThread].(state := Running);
    }

    method FinishSwitch(ghost s: KState)
      requires Valid() && nextThread != NULL && s.WF() && State() == s.(next := nextThread)
      modifies this`codePage, this`userThreadInfo, allThreads, codeBackingPages
      ensures Valid() && State() == SwitchTo(s, nextThread)
    {
      StartNext();
      SwapPages(currentThread, nextThread);
      CheckThreadSignals(nextThread);
      UpdateUserInfo(nextThread);
      SwitchedInPlace(s, nextThread);
    }

    // ---- src/kernel/thread.c: states

    method Wake(tid: int) returns (woken: int)
      requires Valid()
      modifies allThreads
      ensures Valid() && (State(), woken) == WakeThread(old(State()), tid)
    {
      if IsValid(tid) {
        allThreads[tid] := allThreads[tid].(state := Suspended);
        return 1;
      }
      return 0;
    }

    method Wait()
      requires Valid() && exited.None? && currentThread != NULL
      modifies this, allThreads, codeBackingPages
      ensures Valid() && State() == WaitThread(old(State()))
    {
      allThreads[currentThread] := allThreads[currentThread].(state := Waiting);
      Schedule();
    }

    method Cleanup(i: int)
      requires Valid() && 0 <= i < allThreads.Length
      modifies allThreads, codeBackingPages, heap.blockTags
      ensures Valid() && State() == CleanupThread(old(State()), i)
    {
      heap.FreeAll(allThreads[i].id);
      var page := allThreads[i].codeBackingPage;
      if page != INVALID_PAGE {
        if codeBackingPages[page].refCount != 0 {
          codeBackingPages[page] := codeBackingPages[page].(refCount := codeBackingPages[page].refCount - 1);
        }
        allThreads[i] := allThreads[i].(codeBackingPage := INVALID_PAGE);
      }
      CleanedInPlace(old(State()), i);
    }

    method Cancel(id: int) returns (cancelled: int)
      requires Valid() && exited.None? && currentThread != NULL
      modifies this, allThreads, codeBackingPages, heap.blockTags
      ensures Valid() && (State(), cancelled) == CancelThread(old(State()), id)
    {
      var tid := if id == CURRENT_THREAD then allThreads[currentThread].id else id;
      if !IsValid(tid) {
        return 0;
      }
      allThreads[tid] := allThreads[tid].(state := Cancelled);
      Cleanup(tid);
      if tid == allThreads[currentThread].id {
        Schedule();
      }
      return 1;
    }

    method YieldTo(to: int) returns (switched: int)
      requires Valid() && exited.None? && NULL <= to < allThreads.Length
      modifies this, allThreads, codeBackingPages
      ensures Valid() && (State(), switched) == DoYield(old(State()), to)
    {
      nextThread := to;
      Schedule();
      switched := if nextThread != NULL && nextThread != currentThread then 1 else 0;
    }

    method Yield(tid: int, kind: int) returns (switched: int)
      requires Valid() && exited.None?
      modifies this, allThreads, codeBackingPages
      ensures Valid() && (State(), switched) == YieldCall(old(State()), tid, kind)
    {
      if kind == YIELD_ANY {
        if tid != INVALID_THREAD {
          exited := Some(1);
          return 0;
        }
        switched := YieldTo(NULL);
      } else if kind == YIELD_TO {
        if !IsSchedulable(tid) {
          return 0;
        }
        switched := YieldTo(tid);
      } else {
        exited := Some(1);
        return 0;
      }
    }

    // ---- src/kernel/thread.c: creation

    method FreeBackingPage() returns (page: nat)
      requires Valid()
      ensures page == FindFreeBackingPage(codeBackingPages[..], 0)
    {
      var i := 0;
      while i < codeBackingPages.Length
        invariant 0 <= i <= codeBackingPages.Length
        invariant FindFreeBackingPage(codeBackingPages[..], 0) == FindFreeBackingPage(codeBackingPages[..], i)
      {
        if codeBackingPages[i].refCount == 0 {
          return i;
        }
        i := i + 1;
      }
      return INVALID_PAGE;
    }

    /** One more thread runs from the page of the creator of slot idx, if it has one. */
    method SetupCodePage(idx: int)
      requires Valid() && 0 <= idx < allThreads.Length
      modifies allThreads, codeBackingPages
      ensures Valid()
      ensures var page := PageOf(old(allThreads[..]), currentThread);
              && allThreads[..] == (if page == INVALID_PAGE then old(allThreads[..])
                                    else old(allThreads[..])[idx := old(allThreads[idx]).(codeBackingPage := page)])
              && codeBackingPages[..] == WithHolder(old(codeBackingPages[..]), page)
    {
      if currentThread != NULL {
        var page := allThreads[currentThread].codeBackingPage;
        if page != INVALID_PAGE {
          allThreads[idx] := allThreads[idx].(codeBackingPage := page);
          codeBackingPages[page] := codeBackingPages[page].(refCount := Incremented(codeBackingPages[page].refCount));
        }
      }
    }

    method StartThread(idx: int, worker: int, name: Option<string>, args: ThreadArgs, permissions: bv16)
      requires Valid() && 0 <= idx < allThreads.Length
      modifies allThreads, codeBackingPages
      ensures Valid()
      ensures var s := old(State());
              State() == s.(threads := s.threads[idx := NewThread(s, idx, worker, name, args, permissions)],
                            pages := WithHolder(s.pages, InheritedPage(s, idx)))
    {
      ghost var s := State();
      allThreads[idx] := InitThread(allThreads[idx], idx, name, worker, args, permissions);
      assert PageOf(allThreads[..], currentThread) == InheritedPage(s, idx);
      SetupCodePage(idx);
      assert allThreads[..] == s.threads[idx := NewThread(s, idx, worker, name, args, permissions)];
    }

    method ReusableSlot() returns (idx: int)
      ensures idx == FirstReusable(allThreads[..], 0)
    {
      idx := 0;
      while idx < allThreads.Length
        invariant 0 <= idx <= allThreads.Length
        invariant FirstReusable(allThreads[..], 0) == FirstReusable(allThreads[..], idx)
      {
        var t := allThreads[idx];
        if t.id == INVALID_THREAD || t.state == Cancelled || t.state == Finished {
          return;
        }
        idx := idx + 1;
      }
      return NULL;
    }

    method AddNamed(worker: int, name: Option<string>, args: ThreadArgs, removePermissions: bv16) returns (tid: int)
      requires Valid()
      modifies allThreads, codeBackingPages
      ensures Valid() && (State(), tid) == AddNamedThread(old(State()), worker, name, args, removePermissions)
    {
      var idx := ReusableSlot();
      if idx == NULL {
        return INVALID_THREAD;
      }
      var permissions := TPERM_ALL;
      if currentThread != NULL {
        permissions := allThreads[currentThread].permissions;
      }
      StartThread(idx, worker, name, args, permissions & !removePermissions);
      return idx;
    }

    method AddFromFile(filename: string, removePermissions: bv16) returns (tid: int)
      requires Valid()
      modifies this`userThreadInfo, allThreads, codeBackingPages
      ensures Valid() && (State(), tid) == AddThreadFromFile(old(State()), filename, removePermissions)
    {
      var freePage := FreeBackingPage();
      if freePage == INVALID_PAGE {
        if currentThread != NULL {
          SetErrNo(E_NO_PAGE);
        }
        return INVALID_THREAD;
      }
      tid := AddNamed(LOAD_ELF, Some("loader"), ThreadArgs(freePage, removePermissions as int, 0, 0), 0);
      if tid == INVALID_THREAD {
        return;
      }
      GiveLoaderPage(tid, |filename| + 1, freePage);
    }

    /** The loader's stack makes room for its arguments, and it holds the page it will fill. */
    method GiveLoaderPage(tid: int, filenameLen: nat, page: nat)
      requires Valid() && 0 <= tid < allThreads.Length && |allThreads[tid].frames| == 1
      requires page < codeBackingPages.Length
      modifies allThreads, codeBackingPages
      ensures Valid()
      ensures var s := old(State()); var loader := WithLoaderStack(s.threads[tid], filenameLen);
              State() == s.(threads := s.threads[tid := loader.(codeBackingPage := page)],
                            pages := WithHolder(s.pages, page))
    {
      var loader := WithLoaderStack(allThreads[tid], filenameLen);
      allThreads[tid] := loader.(codeBackingPage := page);
      codeBackingPages[page] := codeBackingPages[page].(refCount := Incremented(codeBackingPages[page].refCount));
    }

    method Add(name: Option<string>, args: Option<ThreadArgs>, worker: int, filename: string,
               flags: Option<ThreadFlags>)
      returns (tid: int)
      requires Valid()
      modifies this`userThreadInfo, allThreads, codeBackingPages
      ensures Valid() && (State(), tid) == AddThreadCall(old(State()), name, args, worker, filename, flags)
    {
      if flags.None? {
        SetErrNo(E_INVALID_ARGS);
        return INVALID_THREAD;
      }
      if LacksPermission(TPERM_CREATE) {
        return INVALID_THREAD;
      }
      if flags.value.isFile {
        tid := AddFromFile(filename, flags.value.removePermissions);
      } else {
        var newArgs := if args.Some? then args.value else ThreadArgs(0, 0, 0, 0);
        tid := AddNamed(worker, name, newArgs, flags.value.removePermissions);
      }
    }

    method RestartThread(worker: int, name: Option<string>, args: ThreadArgs, removePermissions: bv16)
      requires Valid() && currentThread != NULL && allThreads[currentThread].codeBackingPage != INVALID_PAGE
      modifies this`codePage, allThreads, codeBackingPages
      ensures Valid() && State() == RestartCall(old(State()), worker, name, args, removePermissions)
    {
      var t := allThreads[currentThread];
      allThreads[currentThread] := InitThread(t, t.id, name, worker, args, t.permissions & !removePermissions);
      allThreads[currentThread] :=
        allThreads[currentThread].(parent := t.parent, codeBackingPage := t.codeBackingPage);
      SwapPages(currentThread, NULL);
    }

    // ---- src/kernel/message.c

    method GetMessage(hasPointers: bool) returns (ok: int, message: Option<Message>)
      requires Valid() && currentThread != NULL
      modifies this`userThreadInfo, allThreads
      ensures Valid() && (State(), ok) == GetMsgCall(old(State()), hasPointers)
      ensures message == if hasPointers then Received(old(State())) else None
    {
      if !hasPointers {
        SetErrNo(E_INVALID_ARGS);
        return 0, None;
      }
      var t := allThreads[currentThread];
      if t.messages.next != t.messages.end || t.messages.full {
        message := Some(t.messages.slots[t.messages.next]);
        var next := IncMsgPointer(t.messages.next);
        allThreads[currentThread] := t.(messages := t.messages.(next := next, full := false));
        return 1, message;
      }
      return 0, None;
    }

    method SendMessage(destination: int, content: int) returns (ok: int)
      requires Valid()
      modifies allThreads
      ensures Valid() && (State(), ok) == SendMsgCall(old(State()), destination, content)
    {
      if !IsValid(destination) || allThreads[destination].messages.full {
        return 0;
      }
      var t := allThreads[destination];
      var end := IncMsgPointer(t.messages.end);
      var slots := t.messages.slots[t.messages.end := Message(GetThreadId(), content)];
      allThreads[destination] :=
        t.(messages := t.messages.(slots := slots, end := end, full := t.messages.next == end));
      return 1;
    }

    // ---- src/kernel/condition_variable.c

    method InitCondVar(c: nat)
      requires Valid() && c < condVars.Length
      modifies condVars
      ensures Valid()
      ensures State() == WithCondVar(old(State()), c, old(condVars[c]).(first := 0, last := 0, full := false))
    {
      condVars[c] := condVars[c].(first := 0, last := 0, full := false);
    }

    method Signal(c: nat) returns (signalled: bool)
      requires Valid() && c < condVars.Length
      modifies allThreads, condVars
      ensures Valid() && State() == Signalled(old(State()), c) && signalled == HasWaiter(old(condVars[c]))
    {
      var cv := condVars[c];
      if cv.first != cv.last || cv.full {
        var _ := Wake(cv.waiting[cv.first]);
        condVars[c] := cv.(first := (cv.first + 1) % allThreads.Length, full := false);
        return true;
      }
      return false;
    }

    method Broadcast(c: nat)
      requires Valid() && c < condVars.Length
      modifies allThreads, condVars
      ensures Valid() && State() == Broadcasted(old(State()), c)
    {
      var signalled := true;
      while signalled
        invariant Valid() && Broadcasted(State(), c) == Broadcasted(old(State()), c)
        invariant !signalled ==> !HasWaiter(condVars[c])
        decreases signalled, BroadcastBound(condVars[c])
      {
        ghost var cv := condVars[c];
        signalled := Signal(c);
        if signalled {
          BroadcastBoundDecreases(cv, allThreads.Length);
        }
      }
    }

    method WaitOn(c: nat)
      requires Valid() && exited.None? && currentThread != NULL && c < condVars.Length
      modifies this, allThreads, codeBackingPages, condVars
      ensures Valid()
      ensures State() == WaitThread(WithCondVar(old(State()), c, Enqueued(old(condVars[c]), ThreadId(old(State())))))
    {
      var cv := condVars[c];
      var last := (cv.last + 1) % allThreads.Length;
      condVars[c] := cv.(waiting := cv.waiting[cv.last := GetThreadId()], last := last, full := cv.first == last);
      Wait();
    }

    method ConditionVariableCall(op: CondVarOp, cv: Option<nat>) returns (ok: int)
      requires Valid() && exited.None? && currentThread != NULL && (cv.Some? ==> cv.value < condVars.Length)
      modifies this, allThreads, codeBackingPages, condVars
      ensures Valid() && (State(), ok) == CondVarCall(old(State()), op, cv)
    {
      if op == CvUnknown || cv.None? {
        SetErrNo(E_INVALID_ARGS);
        return 0;
      }
      match op
      case CvInit =>
        InitCondVar(cv.value);
        return 1;
      case CvSignal =>
        var signalled := Signal(cv.value);
        return if signalled then 1 else 0;
      case CvBroadcast =>
        Broadcast(cv.value);
        return 1;
      case CvWait =>
        WaitOn(cv.value);
        return 1;
    }

    // ---- src/kernel/thread_property.cpp

    method GetProperty(id: int, property: Property, hasResult: bool) returns (ok: int, value: Property)
      requires Valid()
      modifies this`userThreadInfo
      ensures Valid() && (State(), ok) == GetPropertyCall(old(State()), id, property, hasResult)
      ensures ok == 1 ==> value == ReadProperty(allThreads[ResolvedTid(old(State()), id)], property)
    {
      ok, value := 0, PropUnknown;
      if !hasResult {
        SetErrNo(E_INVALID_ARGS);
        return;
      }
      var tid := if id == CURRENT_THREAD then GetThreadId() else id;
      if !IsValid(tid) {
        SetErrNo(E_INVALID_ID);
        return;
      }
      if !IsReadable(property) {
        SetErrNo(E_INVALID_ARGS);
        return;
      }
      return 1, ReadProperty(allThreads[tid], property);
    }

    method SetProperty(id: int, value: Option<Property>) returns (ok: int)
      requires Valid()
      modifies this`userThreadInfo, allThreads
      ensures Valid() && (State(), ok) == SetPropertyCall(old(State()), id, value)
    {
      if value.None? {
        SetErrNo(E_INVALID_ARGS);
        return 0;
      }
      if LacksPermission(if id == CURRENT_THREAD then TPERM_TCONFIG else TPERM_TCONFIG_OTHER) {
        SetErrNo(E_PERM);
        return 0;
      }
      var tid := if id == CURRENT_THREAD then GetThreadId() else id;
      if !IsValid(tid) {
        SetErrNo(E_INVALID_ID);
        return 0;
      }
      ok := ChangeProperty(tid, value.value);
    }

    method LinkChild(tid: int, child: int)
      requires Valid() && IsValid(tid)
      modifies allThreads
      ensures Valid() && State() == WithProperty(old(State()), tid, PropChild(child)).0
    {
      if IsValid(child) {
        allThreads[tid] := allThreads[tid].(child := child);
        allThreads[child] := allThreads[child].(parent := tid);
      }
    }

    method ChangeProperty(tid: int, property: Property) returns (ok: int)
      requires Valid() && IsValid(tid)
      modifies this`userThreadInfo, allThreads
      ensures Valid() && (State(), ok) == WithProperty(old(State()), tid, property)
    {
      ok := 1;
      match property
      case PropChild(child) =>
        LinkChild(tid, child);
      case PropName(name) =>
        allThreads[tid] := allThreads[tid].(name := Truncated(name));
      case PropPermissions(remove) =>
        allThreads[tid] := allThreads[tid].(permissions := allThreads[tid].permissions & !remove);
      case PropRegisters(f) =>
        allThreads[tid] := allThreads[tid].(frames := WithRegisters(allThreads[tid].frames, f));
      case PropPendingSignals(signal) =>
        if 1 <= signal <= 32 {
          allThreads[tid] := allThreads[tid].(pendingSignals := allThreads[tid].pendingSignals + {signal - 1});
        }
      case PropSignalHandler(handler) =>
        allThreads[tid] := allThreads[tid].(signalHandler := handler);
      case _ =>
        SetErrNo(E_INVALID_ARGS);
        ok := 0;
    }

    method SetConfig(enable: bv32, disable: bv32)
      requires Valid()
      modifies this`kernelConfig
      ensures Valid() && State() == SetConfigCall(old(State()), enable, disable)
    {
      if LacksPermission(TPERM_KCONFIG) {
        return;
      }
      kernelConfig := kernelConfig | enable;
      kernelConfig := kernelConfig & !disable;
    }

    // ---- src/kernel/syscall.c

    /** The memory calls; the bytes move with a reallocated run. */
    method CallHeap(call: Call) returns (result: int)
      requires Valid() && currentThread != NULL && CallIsUsable(State(), call) && HasMachineArguments(State(), call)
      requires call.Malloc? || call.Realloc? || call.Free?
      modifies heap.blockTags, heap.bytes
      ensures Valid() && (heap.blockTags[..], result) == Steps.MemoryCall(old(State()), call)
      ensures State() == old(State()).(heap := heap.blockTags[..])
      ensures heap.bytes[..] ==
              if call.Realloc? then
                ReallocBytes(old(heap.bytes[..]), old(heap.blockTags[..]), heap.layout,
                             !HasNoPermission(old(State()), TPERM_ALLOC), ThreadId(old(State())), call.ptr, call.size)
              else old(heap.bytes[..])
    {
      var allowed := !LacksPermission(TPERM_ALLOC);
      match call
      case Malloc(size) => result := heap.Malloc(allowed, GetThreadId(), size);
      case Realloc(ptr, size) => result := heap.Realloc(allowed, GetThreadId(), ptr, size);
      case Free(ptr) =>
        heap.Free(allowed, GetThreadId(), ptr);
        result := 0;
    }

    method Invoke(call: Call) returns (result: int)
      requires Valid() && exited.None? && currentThread != NULL
      requires CallIsUsable(State(), call) && HasMachineArguments(State(), call)
      modifies this, allThreads, codeBackingPages, condVars, heap.blockTags, heap.bytes
      ensures Valid() && (State(), result) == Dispatch(old(State()), call)
    {
      result := 0;
      match call
      case AddThread(name, args, worker, filename, flags) => result := Add(name, args, worker, filename, flags);
      case GetThreadProperty(tid, property, hasResult) =>
        var ok, _ := GetProperty(tid, property, hasResult);
        result := ok;
      case SetThreadProperty(tid, value) => result := SetProperty(tid, value);
      case SetKernelConfig(enable, disable) => SetConfig(enable, disable);
      case Yield(tid, kind) => result := Yield(tid, kind);
      case Restart(worker, name, args, removePermissions) => RestartThread(worker, name, args, removePermissions);
      case GetMsg(hasPointers) =>
        var ok, _ := GetMessage(hasPointers);
        result := ok;
      case SendMsg(destination, content) => result := SendMessage(destination, content);
      case ThreadWait => Wait();
      case ThreadWake(tid) => result := Wake(tid);
      case ThreadCancel(tid) => result := Cancel(tid);
      case CondVar(op, cv) => result := ConditionVariableCall(op, cv);
      case HostCall(_, _) => result := InvokeOutside(call);
      case ExitKernel(_) => result := InvokeOutside(call);
      case UnknownCall => result := InvokeOutside(call);
      case Malloc(_) => result := InvokeOutside(call);
      case Realloc(_, _) => result := InvokeOutside(call);
      case Free(_) => result := InvokeOutside(call);
    }

    /** The calls that touch no thread record. */
    method InvokeOutside(call: Call) returns (result: int)
      requires Valid() && exited.None? && currentThread != NULL
      requires CallIsUsable(State(), call) && HasMachineArguments(State(), call)
      requires call.HostCall? || call.ExitKernel? || call.UnknownCall? || call.Malloc? || call.Realloc? || call.Free?
      modifies this, heap.blockTags, heap.bytes
      ensures Valid() && (State(), result) == Dispatch(old(State()), call)
    {
      result := 0;
      match call
      case HostCall(errNo, answer) =>
        if errNo != 0 {
          SetErrNo(errNo);
        }
        result := answer;
      case ExitKernel(status) => exited := Some(status);
      case UnknownCall => exited := Some(1);
      case Malloc(_) => result := CallHeap(call);
      case Realloc(_, _) => result := CallHeap(call);
      case Free(_) => result := CallHeap(call);
    }

    method AnswerCaller(depth: int, result: int)
      requires Valid() && currentThread != NULL
      modifies allThreads
      ensures Valid() && State() == WithResult(old(State()), depth, result)
    {
      var t := allThreads[currentThread];
      if 0 <= depth < |t.frames| {
        allThreads[currentThread] := t.(frames := t.frames[depth := t.frames[depth].(arg0 := result)]);
      }
    }

    /** If the call reported nothing, the errno from before it is put back. */
    method RestoreErrNo(logErrNo: bool, oldErrNo: int)
      requires Valid()
      modifies this`userThreadInfo
      ensures Valid()
      ensures var errNo := old(userThreadInfo.errNo);
              State() == old(State()).WithErrNo(if logErrNo && errNo == 0 then oldErrNo else errNo)
    {
      if logErrNo && userThreadInfo.errNo == 0 {
        SetErrNo(oldErrNo);
      }
    }

    method FinishCall(call: Call, depth: int, result: int, logErrNo: bool, oldErrNo: int, ghost before: KState)
      requires Valid() && currentThread != NULL
      requires before.WF() && before.current != NULL && depth == |before.Current().frames| - 1
      requires logErrNo == LogsErrNo(before) && oldErrNo == before.info.errNo
      modifies this, allThreads
      ensures Valid() && State() == FinishSyscall(old(State()), before, call, result)
    {
      if HasResult(call) {
        AnswerCaller(depth, result);
      }
      RestoreErrNo(logErrNo, oldErrNo);
      ReturnToCaller(call);
    }

    /** Unless the call has chosen another thread, its caller runs on. */
    method ReturnToCaller(call: Call)
      requires Valid() && currentThread != NULL
      modifies this, allThreads
      ensures Valid()
      ensures var s := old(State());
              State() == if s.next != NULL then s
                         else if UpdatesUserInfo(call) then UpdateUserThreadInfo(s, s.current).(next := s.current)
                         else s.(next := s.current)
    {
      if nextThread == NULL {
        nextThread := currentThread;
        if UpdatesUserInfo(call) {
          UpdateUserInfo(nextThread);
        }
      }
    }

    /** While failed calls are logged, a call starts with errno 0. */
    method BeginCall() returns (logErrNo: bool, oldErrNo: int)
      requires Valid()
      modifies this`userThreadInfo
      ensures Valid() && State() == WithErrNoForCall(old(State()))
      ensures logErrNo == LogsErrNo(old(State())) && oldErrNo == old(userThreadInfo.errNo)
    {
      logErrNo, oldErrNo := kernelConfig & KCFG_LOG_FAILED_ERRNO != 0, userThreadInfo.errNo;
      if logErrNo {
        SetErrNo(0);
      }
    }

    method HandleCall(call: Call, ghost before: KState)
      requires Valid() && exited.None? && currentThread != NULL
      requires CallIsUsable(State(), call) && HasMachineArguments(State(), call) && IsEntered(before, State())
      modifies this, allThreads, codeBackingPages, condVars, heap.blockTags, heap.bytes
      ensures Valid() && State() == Handled(WithErrNoForCall(old(State())), before, call)
    {
      EnteredForCall(before, State(), call);
      var depth := |allThreads[currentThread].frames| - 1;
      var logErrNo, oldErrNo := BeginCall();
      CallAndFinish(call, depth, logErrNo, oldErrNo, before);
    }

    method CallAndFinish(call: Call, depth: int, logErrNo: bool, oldErrNo: int, ghost before: KState)
      requires Valid() && exited.None? && currentThread != NULL
      requires CallIsUsable(State(), call) && HasMachineArguments(State(), call)
      requires before.WF() && before.current != NULL && depth == |before.Current().frames| - 1
      requires logErrNo == LogsErrNo(before) && oldErrNo == before.info.errNo
      modifies this, allThreads, codeBackingPages, condVars, heap.blockTags, heap.bytes
      ensures Valid() && State() == Handled(old(State()), before, call)
    {
      var result := Invoke(call);
      if exited.None? {
        FinishCall(call, depth, result, logErrNo, oldErrNo, before);
      }
    }

    method HandleSyscallEntry(call: Call, stackOk: bool)
      requires Valid() && exited.None? && currentThread != NULL
      requires CallIsUsable(State(), call) && HasMachineArguments(State(), call)
      modifies this, allThreads, codeBackingPages, condVars, heap.blockTags, heap.bytes
      ensures Valid() && State() == HandleSyscall(old(State()), call, stackOk)
    {
      ghost var s := State();
      if stackOk {
        HandleCall(call, s);
        return;
      }
      allThreads[currentThread] := allThreads[currentThread].(id := INVALID_THREAD, name := "");
      assert State() == Invalidated(s);
      if kernelConfig & KCFG_DESTROY_ON_STACK_ERR == 0 {
        exited := Some(1);
        return;
      }
      HandleCall(YIELD_TO_ANY, s);
    }

    // ---- src/hw/arm_virt/yield.S

    method SaveCurrentThread(f: Frame)
      requires Valid() && currentThread != NULL
      modifies allThreads
      ensures Valid() && State() == Saved(old(State()), f)
    {
      allThreads[currentThread] := allThreads[currentThread].(frames := allThreads[currentThread].frames + [f]);
    }

    method LoadNext()
      requires Valid() && exited.None?
      modifies this, allThreads, codeBackingPages
      ensures Valid() && State() == LoadNextThread(old(State()))
    {
      if nextThread == NULL {
        Schedule();
        if exited.Some? {
          return;
        }
      }
      RestoreNext();
    }

    method RestoreNext()
      requires Valid() && nextThread != NULL
      modifies this`currentThread, this`nextThread, this`cpu, allThreads
      ensures Valid() && State() == Resumed(old(State()))
    {
      currentThread := nextThread;
      nextThread := NULL;
      var t := allThreads[currentThread];
      cpu := TopFrame(t);
      allThreads[currentThread] := t.(frames := Popped(t.frames));
    }

    /** The end of thread_start, up to its last yield. */
    method FinishThread()
      requires Valid() && currentThread != NULL
      modifies allThreads, codeBackingPages, heap.blockTags
      ensures Valid()
      ensures var cleaned := CleanupThread(old(State()), currentThread);
              State() == cleaned.WithThread(currentThread, cleaned.Current().(state := Finished))
    {
      Cleanup(currentThread);
      allThreads[currentThread] := allThreads[currentThread].(state := Finished);
    }

    method EnterSyscall(f: Frame, call: Call, stackOk: bool)
      requires Valid() && Allowed(State(), Syscall(f, call, stackOk)) && HasMachineArguments(State(), call)
      modifies this, allThreads, codeBackingPages, condVars, heap.blockTags, heap.bytes
      ensures Valid() && State() == Step(old(State()), Syscall(f, call, stackOk))
    {
      SaveCurrentThread(f);
      HandleSyscallEntry(call, stackOk);
      if exited.None? {
        LoadNext();
      }
    }

    method EnterTimer(f: Frame, next: int)
      requires Valid() && currentThread != NULL && exited.None? && (next == NULL || next == currentThread)
      modifies this, allThreads, codeBackingPages
      ensures Valid() && State() == LoadNextThread(Saved(old(State()), f).(next := next))
    {
      SaveCurrentThread(f);
      nextThread := next;
      LoadNext();
    }

    method EnterThreadExit(f: Frame)
      requires Valid() && Allowed(State(), ThreadExit(f))
      modifies this, allThreads, codeBackingPages, heap.blockTags
      ensures Valid() && State() == Step(old(State()), ThreadExit(f))
    {
      FinishThread();
      SaveCurrentThread(f);
      LoadNext();
    }

    /** Everything that can happen: user code runs, or the kernel is entered and left. */
    method Happen(e: Event)
      requires Valid() && Allowed(State(), e) && (e.Syscall? ==> HasMachineArguments(State(), e.call))
      modifies this, allThreads, codeBackingPages, condVars, heap.blockTags, heap.bytes
      ensures Valid() && State() == Step(old(State()), e)
    {
      match e
      case UserErrno(v) =>
        SetErrNo(v);
      case UserCode(page) =>
        codePage := page;
      case LoadImage(page) =>
        var p := allThreads[currentThread].codeBackingPage;
        codeBackingPages[p] := codeBackingPages[p].(data := page);
      case Syscall(f, call, stackOk) =>
        EnterSyscall(f, call, stackOk);
      case ThreadSwitch(f) =>
        SaveCurrentThread(f);
        LoadNext();
      case TimerTick(f) =>
        EnterTimer(f, NULL);
      case TimerControl(f) =>
        EnterTimer(f, currentThread);
      case ThreadExit(f) =>
        EnterThreadExit(f);
    }

    method Boot(start: StartUp)
      requires Valid() && IsCold(State())
      modifies this, allThreads, codeBackingPages
      ensures Valid() && State() == Booted(old(State()), start)
    {
      match start
      case Program(filename) =>
        var tid := AddFromFile(filename, 0);
        if tid == INVALID_THREAD {
          exited := Some(1);
          return;
        }
        LoadNext();
      case BuiltIn(setup) =>
        var _ := AddNamed(setup, None, ThreadArgs(0, 0, 0, 0), 0);
        LoadNext();
    }
  }

  // ---- A switch is the sum of its parts

  ghost function Started(ts: seq<Thread>, current: int, next: int): (r: seq<Thread>)
    requires NULL <= current < |ts| && 0 <= next < |ts|
    ensures |r| == |ts| && forall i | 0 <= i < |ts| :: r[i] == ts[i].(state := r[i].state)
  {
    var parked :=
      if current != NULL && ts[current].state == Running then ts[current := ts[current].(state := Suspended)] else ts;
    parked[next := parked[next].(state := Running)]
  }

  ghost function Swapped(s: KState, next: int): KState
    requires s.WF() && 0 <= next < |s.threads|
  {
    var swapped := if s.current == next then (s.pages, s.codePage)
                   else SwapPagedThreads(s.pages, s.codePage, PageOf(s.threads, s.current), PageOf(s.threads, next));
    s.(next := next, pages := swapped.0, codePage := swapped.1)
  }

  lemma SwitchedInPlace(s: KState, next: int)
    requires s.WF() && 0 <= next < |s.threads|
    ensures var started := Started(s.threads, s.current, next);
            var checked := started[next := CheckSignals(started[next])];
            var saved := WithSavedErrNo(checked, s.current, s.info.errNo);
            && saved == Switched(s.threads, s.current, next, s.info.errNo)
            && SwitchTo(s, next) == Swapped(s, next).(threads := saved, info := InfoOf(saved[next], s.config))
  {
    var started := Started(s.threads, s.current, next);
    var checked := started[next := CheckSignals(started[next])];
    var saved := WithSavedErrNo(checked, s.current, s.info.errNo);
    assert saved == Switched(s.threads, s.current, next, s.info.errNo);
  }

  /** Giving up no page is the same as giving up INVALID_PAGE. */
  lemma CleanedInPlace(s: KState, i: int)
    requires s.WF() && 0 <= i < |s.threads|
    ensures s.threads[i].codeBackingPage == INVALID_PAGE ==>
              CleanupThread(s, i) == s.(heap := BlockTags.FreeAll(s.heap, s.threads[i].id))
    ensures var p := s.threads[i].codeBackingPage;
            p != INVALID_PAGE && s.pages[p].refCount == 0 ==> CleanupThread(s, i).pages == s.pages
  {
    var t := s.threads[i];
    assert t.codeBackingPage == INVALID_PAGE ==> s.threads[i := t.(codeBackingPage := INVALID_PAGE)] == s.threads;
  }
}
