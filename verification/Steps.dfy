/**
 One kernel entry as one step: thread properties (src/kernel/thread_property.cpp), the syscall
 handler (src/kernel/syscall.c) and the switch protocol (src/hw/arm_virt/yield.S).
 */
module Steps {
  import opened Basics
  import opened Threads
  import opened Scheduler
  import opened Lifecycle
  import opened Rings
  import BlockTags

  // ---- Properties

  /** The property is one that can be read. */
  predicate IsReadable(p: Property) {
    p.PropName? || p.PropChild? || p.PropParent? || p.PropState? || p.PropPermissions? || p.PropRegisters?
  }

  function TopFrame(t: Thread): Frame {
    if t.frames == [] then Frame(0, 0, 0, 0, 0) else t.frames[|t.frames| - 1]
  }

  /** The value read for a property of thread t. */
  function ReadProperty(t: Thread, p: Property): Property {
    match p
    case PropName(_) => PropName(t.name)
    case PropChild(_) => PropChild(t.child)
    case PropParent(_) => PropParent(t.parent)
    case PropState(_) => PropState(t.state)
    case PropPermissions(_) => PropPermissions(t.permissions)
    case PropRegisters(_) => PropRegisters(TopFrame(t))
    case _ => PropUnknown
  }

  function ResolvedTid(s: KState, tid: int): int
    requires s.WF()
  {
    if tid == CURRENT_THREAD then ThreadId(s) else tid
  }

  function GetPropertyCall(s: KState, tid: int, p: Property, hasResult: bool): (r: (KState, int))
    requires s.WF()
    ensures r.0.WF() && r.0.current == s.current
  {
    if !hasResult then (s.WithErrNo(E_INVALID_ARGS), 0)
    else if !IsValidThread(s.threads, ResolvedTid(s, tid)) then (s.WithErrNo(E_INVALID_ID), 0)
    else if !IsReadable(p) then (s.WithErrNo(E_INVALID_ARGS), 0)
    else (s, 1)
  }

  /** The frames with the registers, but not the place, of the top one replaced. */
  function WithRegisters(frames: seq<Frame>, f: Frame): seq<Frame> {
    if frames == [] then frames
    else frames[|frames| - 1 := f.(sp := frames[|frames| - 1].sp)]
  }

  /** Thread `i` with a property set; other threads change only in becoming a child. */
  function WithProperty(s: KState, i: int, p: Property): (r: (KState, int))
    requires s.WF() && IsValidThread(s.threads, i)
    ensures r.0.WF() && r.0.current == s.current
  {
    var t := s.threads[i];
    match p
    case PropChild(child) =>
      if !IsValidThread(s.threads, child) then (s, 1)
      else
        var linked := s.WithThread(i, t.(child := child));
        (linked.WithThread(child, linked.threads[child].(parent := i)), 1)
    case PropName(name) => (s.WithThread(i, t.(name := Truncated(name))), 1)
    case PropPermissions(remove) => (s.WithThread(i, t.(permissions := t.permissions & !remove)), 1)
    case PropRegisters(f) => (s.WithThread(i, t.(frames := WithRegisters(t.frames, f))), 1)
    case PropPendingSignals(signal) =>
      if 1 <= signal <= 32 then (s.WithThread(i, t.(pendingSignals := t.pendingSignals + {signal - 1})), 1) else (s, 1)
    case PropSignalHandler(handler) => (s.WithThread(i, t.(signalHandler := handler)), 1)
    case _ => (s.WithErrNo(E_INVALID_ARGS), 0)
  }

  function SetPropertyCall(s: KState, tid: int, value: Option<Property>): (r: (KState, int))
    requires s.WF()
    ensures r.0.WF() && r.0.current == s.current
  {
    if value.None? then (s.WithErrNo(E_INVALID_ARGS), 0)
    else if HasNoPermission(s, if tid == CURRENT_THREAD then TPERM_TCONFIG else TPERM_TCONFIG_OTHER) then
      (s.WithErrNo(E_PERM), 0)
    else if !IsValidThread(s.threads, ResolvedTid(s, tid)) then (s.WithErrNo(E_INVALID_ID), 0)
    else WithProperty(s, ResolvedTid(s, tid), value.value)
  }

  function SetConfigCall(s: KState, enable: bv32, disable: bv32): (r: KState)
    requires s.WF()
    ensures r.WF() && r.current == s.current
  {
    if HasNoPermission(s, TPERM_KCONFIG) then s else s.(config := (s.config | enable) & !disable)
  }

  // ---- Syscalls

  /** What the modelled code demands of a call's arguments. */
  predicate CallIsUsable(s: KState, call: Call)
    requires s.WF() && s.current != NULL
  {
    match call
    case Restart(_, _, _, _) => s.Current().codeBackingPage != INVALID_PAGE
    case CondVar(_, cv) => cv.Some? ==> cv.value < |s.condVars|
    case SetThreadProperty(_, value) =>
      value.Some? && value.value.PropPendingSignals? ==> value.value.signal <= 32
    case Realloc(ptr, size) => BlockTags.UsablePtr(s.layout, ptr)
    case Free(ptr) => BlockTags.UsablePtr(s.layout, ptr)
    case _ => true
  }

  /** The heap after a memory call, and the call's result. */
  ghost function MemoryCall(s: KState, call: Call): (seq<BlockTags.BlockTag>, int)
    requires s.WF() && s.current != NULL && CallIsUsable(s, call)
  {
    var allowed := !HasNoPermission(s, TPERM_ALLOC);
    match call
    case Malloc(size) => BlockTags.Malloc(s.heap, s.layout, allowed, ThreadId(s), size)
    case Realloc(ptr, size) => BlockTags.Realloc(s.heap, s.layout, allowed, ThreadId(s), ptr, size)
    case Free(ptr) => (BlockTags.Free(s.heap, s.layout, allowed, ThreadId(s), ptr), 0)
    case _ => (s.heap, 0)
  }

  ghost function Dispatch(s: KState, call: Call): (r: (KState, int))
    requires s.WF() && s.current != NULL && CallIsUsable(s, call)
    ensures r.0.WF() && r.0.current == s.current
  {
    match call
    case AddThread(name, args, worker, filename, flags) => AddThreadCall(s, name, args, worker, filename, flags)
    case GetThreadProperty(tid, p, hasResult) => GetPropertyCall(s, tid, p, hasResult)
    case SetThreadProperty(tid, value) => SetPropertyCall(s, tid, value)
    case SetKernelConfig(enable, disable) => (SetConfigCall(s, enable, disable), 0)
    case Yield(tid, kind) => YieldCall(s, tid, kind)
    case Restart(worker, name, args, removePermissions) => (RestartCall(s, worker, name, args, removePermissions), 0)
    case GetMsg(hasPointers) => GetMsgCall(s, hasPointers)
    case SendMsg(destination, content) => SendMsgCall(s, destination, content)
    case ThreadWait => (WaitThread(s), 0)
    case ThreadWake(tid) => WakeThread(s, tid)
    case ThreadCancel(tid) => CancelThread(s, tid)
    case CondVar(op, cv) => CondVarCall(s, op, cv)
    case HostCall(errNo, result) => (if errNo == 0 then s else s.WithErrNo(errNo), result)
    case ExitKernel(status) => (s.Exit(status), 0)
    case UnknownCall => (s.Exit(1), 0)
    case _ =>
      var m := MemoryCall(s, call);
      (s.(heap := m.0), m.1)
  }

  predicate HasResult(call: Call) {
    !(call.SetKernelConfig? || call.Restart? || call.ThreadWait? || call.ExitKernel? || call.Free?)
  }

  predicate UpdatesUserInfo(call: Call) {
    call.SetThreadProperty? || call.SetKernelConfig? || call.Restart?
  }

  /** The result goes into the caller's saved context number `depth`. */
  function WithResult(s: KState, depth: int, result: int): (r: KState)
    requires s.WF() && s.current != NULL
    ensures r.WF() && SameLives(s, r)
  {
    var t := s.Current();
    if 0 <= depth < |t.frames| then
      s.WithThread(s.current, t.(frames := t.frames[depth := t.frames[depth].(arg0 := result)]))
    else s
  }

  predicate LogsErrNo(s: KState) {
    s.config & KCFG_LOG_FAILED_ERRNO != 0
  }

  /** A failed stack check hides the thread. */
  function Invalidated(s: KState): (r: KState)
    requires s.WF() && s.current != NULL
    ensures r.WF()
  {
    s.WithThread(s.current, s.Current().(id := INVALID_THREAD, name := ""))
  }

  /** The errno a syscall leaves in the user's view. */
  function RestoredErrNo(s: KState, before: KState): int {
    if LogsErrNo(before) && s.info.errNo == 0 then before.info.errNo else s.info.errNo
  }

  /** What follows the call in k_handle_syscall: the result, the errno, and who runs next. */
  function FinishSyscall(s: KState, before: KState, call: Call, result: int): (r: KState)
    requires s.WF() && s.current != NULL && before.WF() && before.current != NULL
    ensures r.WF() && r.next == (if s.next == NULL then s.current else s.next) && SameLives(s, r.(next := s.next))
  {
    var answered := if HasResult(call) then WithResult(s, |before.Current().frames| - 1, result) else s;
    var restored := answered.WithErrNo(RestoredErrNo(s, before));
    if s.next != NULL then restored
    else if UpdatesUserInfo(call) then UpdateUserThreadInfo(restored, s.current).(next := s.current)
    else restored.(next := s.current)
  }

  const YIELD_TO_ANY: Call := Yield(INVALID_THREAD, YIELD_ANY)

  /** The call itself and what follows it. */
  ghost function Handled(s: KState, before: KState, call: Call): (r: KState)
    requires s.WF() && s.current != NULL && before.WF() && before.current != NULL && CallIsUsable(s, call)
    ensures r.WF()
  {
    var done := Dispatch(s, call);
    if done.0.exit.Some? then done.0 else FinishSyscall(done.0, before, call, done.1)
  }

  /** While failed calls are logged, a call starts with errno 0. */
  function WithErrNoForCall(s: KState): KState {
    if LogsErrNo(s) then s.WithErrNo(0) else s
  }

  /** A failed stack check turns the call into a yield by a hidden thread, or ends the kernel. */
  ghost function HandleSyscall(s: KState, call: Call, stackOk: bool): (r: KState)
    requires s.WF() && s.current != NULL && CallIsUsable(s, call)
    ensures r.WF()
  {
    if stackOk then Handled(WithErrNoForCall(s), s, call)
    else if s.config & KCFG_DESTROY_ON_STACK_ERR == 0 then Invalidated(s).Exit(1)
    else Handled(WithErrNoForCall(Invalidated(s)), s, YIELD_TO_ANY)
  }

  // ---- Entry and return

  function Saved(s: KState, f: Frame): (r: KState)
    requires s.WF() && s.current != NULL
    ensures r.WF() && r.current == s.current
  {
    s.WithThread(s.current, s.Current().(frames := s.Current().frames + [f]))
  }

  /** Restores the next thread's top context. */
  function Resumed(s: KState): (r: KState)
    requires s.WF() && s.next != NULL
    ensures r.WF()
  {
    var t := s.threads[s.next];
    s.(threads := s.threads[s.next := t.(frames := Popped(t.frames))],
       cpu := TopFrame(t), current := s.next, next := NULL)
  }

  function LoadNextThread(s: KState): (r: KState)
    requires s.WF()
    ensures r.WF()
  {
    var chosen := if s.next == NULL then DoScheduler(s) else s;
    if chosen.exit.Some? then chosen else Resumed(chosen)
  }

  /** The user code's part in a step, and its rights. */
  ghost predicate Allowed(s: KState, e: Event) {
    && s.WF() && s.current != NULL && s.next == NULL && s.exit.None?
    && match e
       case UserErrno(_) => true
       case UserCode(_) => s.Current().codeBackingPage != INVALID_PAGE
       case LoadImage(_) => s.Current().codeBackingPage != INVALID_PAGE
       case Syscall(f, call, _) => IsUserFrame(s, f) && CallIsUsable(s, call)
       case ThreadSwitch(f) => IsUserFrame(s, f) || IsHandlerEnd(s, f)
       case TimerTick(f) => IsUserFrame(s, f)
       case TimerControl(f) => IsUserFrame(s, f)
       case ThreadExit(f) => IsUserFrame(s, f)
  }

  /** The lowest address the running code must leave alone. */
  function StackLimit(t: Thread): int {
    if t.frames == [] then t.stackEnd else t.frames[|t.frames| - 1].sp
  }

  /** A context of user code, saved below everything that waits on the stack. */
  predicate IsUserFrame(s: KState, f: Frame)
    requires s.WF() && s.current != NULL
  {
    f.pc != HANDLER_END && f.sp + CONTEXT_SIZE <= StackLimit(s.Current())
  }

  /** A handler that returned to the wrapper: its stack is empty again. */
  predicate IsHandlerEnd(s: KState, f: Frame)
    requires s.WF() && s.current != NULL
  {
    f.pc == HANDLER_END && s.Current().frames != [] && f.sp + CONTEXT_SIZE == StackLimit(s.Current())
  }

  ghost function Step(s: KState, e: Event): (r: KState)
    requires Allowed(s, e)
    ensures r.WF()
  {
    match e
    case UserErrno(v) => s.WithErrNo(v)
    case UserCode(page) => s.(codePage := page)
    case LoadImage(page) => s.(pages := WrittenBack(s.pages, s.Current().codeBackingPage, page))
    case Syscall(f, call, stackOk) =>
      var r := HandleSyscall(Saved(s, f), call, stackOk);
      if r.exit.Some? then r else LoadNextThread(r)
    case ThreadSwitch(f) => LoadNextThread(Saved(s, f))
    case TimerTick(f) => LoadNextThread(Saved(s, f))
    case TimerControl(f) => LoadNextThread(Saved(s, f).(next := s.current))
    case ThreadExit(f) =>
      var cleaned := CleanupThread(s, s.current);
      LoadNextThread(Saved(cleaned.WithThread(s.current, cleaned.Current().(state := Finished)), f))
  }

  // ---- Boot

  /** The kernel after its constructors have run. */
  ghost predicate IsCold(s: KState) {
    && s.WF() && s.current == NULL && s.next == NULL && s.exit.None?
    && (forall i | 0 <= i < |s.threads| ::
          s.threads[i] == InitThread(s.threads[i], INVALID_THREAD, None, 0, ThreadArgs(0, 0, 0, 0), 0))
    && (forall p | 0 <= p < |s.pages| :: s.pages[p].refCount == 0)
    && (forall b | 0 <= b < |s.heap| :: s.heap[b] == BlockTags.BlockTag(0, 0))
  }

  /** What the kernel starts with: its built-in setup thread, or a program. */
  datatype StartUp = BuiltIn(setup: int) | Program(filename: string)

  function WithFirstThread(s: KState, start: StartUp): (r: (KState, int))
    requires s.WF()
    ensures r.0.WF()
  {
    match start
    case BuiltIn(setup) => AddNamedThread(s, setup, None, ThreadArgs(0, 0, 0, 0), 0)
    case Program(filename) => AddThreadFromFile(s, filename, 0)
  }

  /** The first thread is added and loaded; the kernel exits if the program cannot be loaded. */
  function Booted(s: KState, start: StartUp): (r: KState)
    requires s.WF()
    ensures r.WF()
  {
    var first := WithFirstThread(s, start);
    if start.Program? && first.1 == INVALID_THREAD then first.0.Exit(1) else LoadNextThread(first.0)
  }

  // ---- Runs

  /** The run's events are each within the user code's rights; nothing follows a kernel exit. */
  ghost predicate IsRun(s: KState, es: seq<Event>)
    decreases |es|
  {
    es == [] || (Allowed(s, es[0]) && IsRun(Step(s, es[0]), es[1..]))
  }

  ghost function Run(s: KState, es: seq<Event>): KState
    requires IsRun(s, es)
    decreases |es|
  {
    if es == [] then s else Run(Step(s, es[0]), es[1..])
  }
}
