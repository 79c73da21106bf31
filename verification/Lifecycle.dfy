/** Creating, waking, cancelling and restarting threads (src/kernel/thread.c), as functions of
    the kernel state.  Pairs hold the new state and the value the C function returns. */
module Lifecycle {
  import opened Basics
  import opened Threads
  import opened Scheduler
  import BlockTags

  function Truncated(name: string): string {
    if |name| <= NAME_MAX then name else name[..NAME_MAX]
  }

  function NameOr(name: Option<string>): string {
    match name
    case Some(n) => Truncated(n)
    case None => ""
  }

  /** A fresh life for slot record t: everything but the stack's place and old message slots. */
  function InitThread(t: Thread, tid: int, name: Option<string>, work: int, args: ThreadArgs,
                      permissions: bv16): Thread {
    Thread(
      [Frame(AlignDown(t.stackEnd) - CONTEXT_SIZE, THREAD_START, 0, 0, 0)],
      Init, 0, {}, tid, NameOr(name), work, args, t.messages.(next := 0, end := 0, full := false),
      INVALID_THREAD, INVALID_THREAD, permissions, 0, INVALID_PAGE, t.stackEnd)
  }

  // ---- States

  function WakeThread(s: KState, tid: int): (r: (KState, int))
    requires s.WF()
    ensures r.0.WF() && r.0.current == s.current
  {
    if IsValidThread(s.threads, tid) then (s.WithThread(tid, s.threads[tid].(state := Suspended)), 1) else (s, 0)
  }

  function WaitThread(s: KState): (r: KState)
    requires s.WF() && s.current != NULL
    ensures r.WF() && r.current == s.current
  {
    DoScheduler(s.WithThread(s.current, s.Current().(state := Waiting)))
  }

  function Decremented(refCount: uint8): uint8 {
    if refCount == 0 then 0 else refCount - 1
  }

  /** A uint8_t increment. */
  function Incremented(refCount: uint8): uint8 {
    if refCount == 255 then 0 else refCount + 1
  }

  function WithRefCount(pages: seq<BackingPage>, p: nat, refCount: uint8): seq<BackingPage>
    requires p < |pages|
  {
    pages[p := pages[p].(refCount := refCount)]
  }

  /** What a thread gives up when it ends: its heap runs and its hold on a page. */
  ghost function CleanupThread(s: KState, i: int): (r: KState)
    requires s.WF() && 0 <= i < |s.threads|
    ensures r.WF() && r.current == s.current
  {
    var p := s.threads[i].codeBackingPage;
    s.(heap := BlockTags.FreeAll(s.heap, s.threads[i].id),
       pages := if p == INVALID_PAGE then s.pages else WithRefCount(s.pages, p, Decremented(s.pages[p].refCount)),
       threads := s.threads[i := s.threads[i].(codeBackingPage := INVALID_PAGE)])
  }

  ghost function CancelSlot(s: KState, i: int): (r: KState)
    requires s.WF() && 0 <= i < |s.threads|
    ensures r.WF() && r.current == s.current
  {
    CleanupThread(s.WithThread(i, s.threads[i].(state := Cancelled)), i)
  }

  ghost function CancelThread(s: KState, tid: int): (r: (KState, int))
    requires s.WF() && s.current != NULL
    ensures r.0.WF() && r.0.current == s.current
  {
    var i := if tid == CURRENT_THREAD then s.Current().id else tid;
    if !IsValidThread(s.threads, i) then (s, 0)
    else if i == s.Current().id then (DoScheduler(CancelSlot(s, i)), 1)
    else (CancelSlot(s, i), 1)
  }

  function DoYield(s: KState, to: int): (r: (KState, int))
    requires s.WF() && NULL <= to < |s.threads|
    ensures r.0.WF() && r.0.current == s.current
  {
    var r := DoScheduler(s.(next := to));
    (r, if r.next != NULL && r.next != r.current then 1 else 0)
  }

  /** A failed assert ends the kernel, here with status 1. */
  function YieldCall(s: KState, tid: int, kind: int): (r: (KState, int))
    requires s.WF()
    ensures r.0.WF() && r.0.current == s.current
  {
    if kind == YIELD_ANY then
      if tid != INVALID_THREAD then (s.Exit(1), 0) else DoYield(s, NULL)
    else if kind == YIELD_TO then
      if !CanSchedule(s.threads, tid) then (s, 0) else DoYield(s, tid)
    else (s.Exit(1), 0)
  }

  // ---- Creation

  predicate IsReusable(t: Thread) {
    t.id == INVALID_THREAD || t.state == Cancelled || t.state == Finished
  }

  /** The lowest slot at or after `from` that a new thread may take, or NULL. */
  function FirstReusable(ts: seq<Thread>, from: nat): (r: int)
    requires from <= |ts|
    ensures NULL <= r < |ts|
    ensures r != NULL ==> from <= r && IsReusable(ts[r]) && forall i | from <= i < r :: !IsReusable(ts[i])
    ensures r == NULL ==> forall i | from <= i < |ts| :: !IsReusable(ts[i])
    decreases |ts| - from
  {
    if from == |ts| then NULL else if IsReusable(ts[from]) then from else FirstReusable(ts, from + 1)
  }

  /** The page a thread created in slot i runs from: its creator's. */
  function InheritedPage(s: KState, i: int): nat
    requires s.WF()
  {
    if s.current == NULL || s.current == i then INVALID_PAGE else s.Current().codeBackingPage
  }

  /** One more holder of page p. */
  function WithHolder(pages: seq<BackingPage>, p: nat): seq<BackingPage>
    requires p < |pages| || p == INVALID_PAGE
  {
    if p >= |pages| then pages else WithRefCount(pages, p, Incremented(pages[p].refCount))
  }

  function CreatorPermissions(s: KState): bv16
    requires s.WF()
  {
    if s.current == NULL then TPERM_ALL else s.Current().permissions
  }

  function NewThread(s: KState, i: int, worker: int, name: Option<string>, args: ThreadArgs, permissions: bv16): Thread
    requires s.WF() && 0 <= i < |s.threads|
  {
    InitThread(s.threads[i], i, name, worker, args, permissions).(codeBackingPage := InheritedPage(s, i))
  }

  function AddNamedThread(s: KState, worker: int, name: Option<string>, args: ThreadArgs,
                          removePermissions: bv16): (r: (KState, int))
    requires s.WF()
    ensures r.0.WF() && r.0.current == s.current && NULL <= r.1 < |r.0.threads| && |r.0.threads| == |s.threads|
    ensures r.1 == FirstReusable(s.threads, 0) && (r.1 != NULL ==> |r.0.threads[r.1].frames| == 1)
  {
    var i := FirstReusable(s.threads, 0);
    if i == NULL then (s, NULL)
    else
      (s.(threads := s.threads[i := NewThread(s, i, worker, name, args, CreatorPermissions(s) & !removePermissions)],
          pages := WithHolder(s.pages, InheritedPage(s, i))),
       i)
  }

  /** The lowest page nobody counts as held, or INVALID_PAGE. */
  function FindFreeBackingPage(pages: seq<BackingPage>, from: nat): (p: nat)
    requires from <= |pages| <= INVALID_PAGE
    ensures p == INVALID_PAGE || (from <= p < |pages| && pages[p].refCount == 0)
    ensures forall q | from <= q < |pages| && q < p :: pages[q].refCount != 0
    decreases |pages| - from
  {
    if from == |pages| then INVALID_PAGE
    else if pages[from].refCount == 0 then from
    else FindFreeBackingPage(pages, from + 1)
  }

  // Where the loader thread's stack puts its copied arguments, filename and initial context.

  function ArgsDest(stackEnd: int): int {
    stackEnd - ARGS_SIZE
  }

  function FilenameDest(stackEnd: int, filenameLen: nat): int {
    ArgsDest(stackEnd) - filenameLen
  }

  function LoaderStackPtr(stackEnd: int, filenameLen: nat): int {
    AlignDown(AlignDown(stackEnd) - CONTEXT_SIZE - filenameLen - ARGS_SIZE)
  }

  /** The loader thread with its initial context moved down and its arguments filled in. */
  function WithLoaderStack(t: Thread, filenameLen: nat): Thread
    requires |t.frames| == 1
  {
    t.(frames := [t.frames[0].(sp := LoaderStackPtr(t.stackEnd, filenameLen))],
       args := t.args.(a3 := ArgsDest(t.stackEnd), a4 := FilenameDest(t.stackEnd, filenameLen)))
  }

  /** A loader thread for `filename`; its first argument names the free page it will fill. */
  function AddThreadFromFile(s: KState, filename: string, removePermissions: bv16): (r: (KState, int))
    requires s.WF()
    ensures r.0.WF() && r.0.current == s.current
  {
    var p := FindFreeBackingPage(s.pages, 0);
    if p == INVALID_PAGE then (if s.current != NULL then s.WithErrNo(E_NO_PAGE) else s, INVALID_THREAD)
    else
      var added := AddNamedThread(s, LOAD_ELF, Some("loader"), ThreadArgs(p, removePermissions as int, 0, 0), 0);
      if added.1 == INVALID_THREAD then (added.0, INVALID_THREAD)
      else
        var loader := WithLoaderStack(added.0.threads[added.1], |filename| + 1);
        (added.0.(threads := added.0.threads[added.1 := loader.(codeBackingPage := p)],
                  pages := WithHolder(added.0.pages, p)),
         added.1)
  }

  function AddThreadCall(s: KState, name: Option<string>, args: Option<ThreadArgs>, worker: int, filename: string,
                         flags: Option<ThreadFlags>): (r: (KState, int))
    requires s.WF()
    ensures r.0.WF() && r.0.current == s.current
  {
    match flags
    case None => (s.WithErrNo(E_INVALID_ARGS), INVALID_THREAD)
    case Some(f) =>
      if HasNoPermission(s, TPERM_CREATE) then (s, INVALID_THREAD)
      else if f.isFile then AddThreadFromFile(s, filename, f.removePermissions)
      else
        AddNamedThread(s, worker, name, if args.Some? then args.value else ThreadArgs(0, 0, 0, 0), f.removePermissions)
  }

  /** The running thread becomes a new program, keeping its id, parent and page; the page is
      copied in from its backing store. */
  function RestartCall(s: KState, worker: int, name: Option<string>, args: ThreadArgs,
                       removePermissions: bv16): (r: KState)
    requires s.WF() && s.current != NULL && s.Current().codeBackingPage != INVALID_PAGE
    ensures r.WF() && r.current == s.current
  {
    var t := s.Current();
    var u := InitThread(t, t.id, name, worker, args, t.permissions & !removePermissions);
    s.(threads := s.threads[s.current := u.(parent := t.parent, codeBackingPage := t.codeBackingPage)],
       codePage := s.pages[t.codeBackingPage].data)
  }
}
