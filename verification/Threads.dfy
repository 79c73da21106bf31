/** The kernel's data: include/kernel/thread.h, include/common/thread.h and the globals of
    src/kernel/thread.c, configured with backing pages for loaded programs. */
module Threads {
  import opened Basics
  import opened BlockTags

  // ---- Constants

  const INVALID_THREAD: int := -1
  const CURRENT_THREAD: int := INVALID_THREAD
  const NULL: int := -1            // a Thread* that points to no slot
  const INVALID_PAGE: nat := 123456
  const QUEUE_SIZE: nat := 5
  const NAME_MAX: nat := 12

  const TPERM_ALL: bv16 := 0xFFFF
  const TPERM_CREATE: bv16 := 1
  const TPERM_ALLOC: bv16 := 4
  const TPERM_KCONFIG: bv16 := 8
  const TPERM_TCONFIG: bv16 := 16
  const TPERM_TCONFIG_OTHER: bv16 := 32

  const KCFG_DESTROY_ON_STACK_ERR: bv32 := 1
  const KCFG_LOG_FAILED_ERRNO: bv32 := 16

  const E_PERM: int := 1
  const E_INVALID_ID: int := 2
  const E_NO_PAGE: int := 3
  const E_INVALID_ARGS: int := 4

  const YIELD_ANY: int := 0
  const YIELD_TO: int := 1

  // Sizes of the 32-bit Arm port.
  const CONTEXT_SIZE: nat := 64
  const STACK_ALIGN: nat := 8
  const ARGS_SIZE: nat := 16

  // Program counters the kernel itself knows; all other values are user code.
  const THREAD_START: int := 1
  const HANDLER_WRAPPER: int := 2
  const HANDLER_END: int := 3
  const LOAD_ELF: int := 4

  // ---- Records

  datatype ThreadState = Init | Running | Suspended | Waiting | Finished | Cancelled

  /** A saved RegisterContext and the stack address it lies at. */
  datatype Frame = Frame(sp: int, pc: int, arg0: int, arg1: int, rest: int)

  datatype ThreadArgs = ThreadArgs(a1: int, a2: int, a3: int, a4: int)

  datatype Message = Message(src: int, content: int)

  datatype Ring = Ring(slots: seq<Message>, next: nat, end: nat, full: bool)
  {
    predicate InBounds() {
      |slots| == QUEUE_SIZE && next < QUEUE_SIZE && end < QUEUE_SIZE
    }
  }

  type MessageRing = r: Ring | r.InBounds()
    witness Ring(seq(QUEUE_SIZE, _ => Message(0, 0)), 0, 0, false)

  /** A 32-bit mask of pending signals, as the set of its bits; bit b stands for signal b + 1. */
  type SignalMask = m: set<int> | forall b | b in m :: 0 <= b < 32
    witness {}

  datatype Thread = Thread(
    frames: seq<Frame>,        // contexts saved on the thread's stack, the last one at stack_ptr
    state: ThreadState,
    signalHandler: int,        // 0 is NULL
    pendingSignals: SignalMask,
    id: int,
    name: string,
    work: int,
    args: ThreadArgs,
    messages: MessageRing,
    parent: int,
    child: int,
    permissions: bv16,
    errNo: int,
    codeBackingPage: nat,
    stackEnd: int              // address just above the thread's stack
  )

  datatype UserThreadInfo = UserThreadInfo(id: int, name: string, kernelConfig: bv32, errNo: int)

  type Page = seq<uint8>

  datatype BackingPage = BackingPage(refCount: uint8, data: Page)

  datatype ConditionVariable = ConditionVariable(waiting: seq<int>, first: nat, last: nat, full: bool)

  datatype KState = KState(
    threads: seq<Thread>,      // all_threads
    current: int,              // current_thread, as an index or NULL
    next: int,                 // next_thread, as an index or NULL
    info: UserThreadInfo,
    config: bv32,
    pages: seq<BackingPage>,
    codePage: Page,
    condVars: seq<ConditionVariable>,
    heap: seq<BlockTag>,
    layout: Layout,
    cpu: Frame,                // the context most recently restored into the registers
    exit: Option<int>          // set when the kernel has called k_exit
  )
  {
    /** Indices are in range; nothing else is assumed of a state. */
    ghost predicate WF() {
      && 1 <= |threads|
      && NULL <= current < |threads| && NULL <= next < |threads|
      && |pages| <= INVALID_PAGE
      && (forall i | 0 <= i < |threads| ::
            threads[i].codeBackingPage == INVALID_PAGE || threads[i].codeBackingPage < |pages|)
      && (forall c | 0 <= c < |condVars| :: InBounds(condVars[c], |threads|))
    }

    function Current(): Thread
      requires 0 <= current < |threads|
    {
      threads[current]
    }

    function WithThread(i: int, t: Thread): KState
      requires 0 <= i < |threads|
    {
      this.(threads := threads[i := t])
    }

    function WithErrNo(e: int): KState {
      this.(info := info.(errNo := e))
    }

    function Exit(status: int): KState {
      this.(exit := Some(status))
    }
  }

  predicate InBounds(cv: ConditionVariable, n: nat) {
    |cv.waiting| == n && cv.first < n && cv.last < n
  }

  // ---- Calls and events

  datatype ThreadFlags = ThreadFlags(isFile: bool, removePermissions: bv16)

  datatype Property =
    | PropName(name: string)
    | PropChild(child: int)
    | PropParent(parent: int)
    | PropState(state: ThreadState)
    | PropPermissions(permissions: bv16)
    | PropRegisters(registers: Frame)      // the sp part is not a register
    | PropPendingSignals(signal: nat)
    | PropSignalHandler(handler: int)
    | PropUnknown

  datatype CondVarOp = CvInit | CvSignal | CvBroadcast | CvWait | CvUnknown

  /** The syscalls; None stands for a NULL pointer argument. */
  datatype Call =
    | AddThread(name: Option<string>, args: Option<ThreadArgs>, worker: int, filename: string,
                flags: Option<ThreadFlags>)
    | GetThreadProperty(tid: int, property: Property, hasResult: bool)
    | SetThreadProperty(tid: int, value: Option<Property>)
    | SetKernelConfig(enable: bv32, disable: bv32)
    | Yield(tid: int, kind: int)
    | Restart(worker: int, name: Option<string>, newArgs: ThreadArgs, removePermissions: bv16)
    | GetMsg(hasPointers: bool)
    | SendMsg(destination: int, content: int)
    | ThreadWait
    | ThreadWake(tid: int)
    | ThreadCancel(tid: int)
    | CondVar(op: CondVarOp, cv: Option<nat>)
    | HostCall(errNo: int, result: int)    // file and mutex calls: only a result and errno
    | ExitKernel(status: int)
    | Malloc(size: nat)
    | Realloc(ptr: nat, size: nat)
    | Free(ptr: nat)
    | UnknownCall

  datatype Event =
    | UserErrno(errNo: int)                // the running thread writes errno
    | UserCode(page: Page)                 // the running thread writes the code page
    | LoadImage(page: Page)                // the loader fills its backing page
    | Syscall(frame: Frame, call: Call, stackOk: bool)
    | ThreadSwitch(frame: Frame)           // svc_thread_switch
    | TimerTick(frame: Frame)
    | TimerControl(frame: Frame)           // svc_enable_timer, svc_disable_timer
    | ThreadExit(frame: Frame)             // the end of thread_start
}
