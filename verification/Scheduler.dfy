/** What the scheduler of src/kernel/thread.c and the signal code of src/kernel/signal_handling.c
    compute, as functions of the kernel state. */
module Scheduler {
  import opened Basics
  import opened Threads

  predicate IsValidThread(ts: seq<Thread>, tid: int) {
    0 <= tid < |ts| && ts[tid].id != INVALID_THREAD
  }

  predicate CanSchedule(ts: seq<Thread>, tid: int) {
    IsValidThread(ts, tid) && (ts[tid].state == Suspended || ts[tid].state == Init || ts[tid].state == Running)
  }

  function ThreadId(s: KState): int
    requires s.WF()
  {
    if s.current != NULL then s.Current().id else INVALID_THREAD
  }

  predicate HasNoPermission(s: KState, permission: bv16)
    requires s.WF()
  {
    s.current != NULL && s.Current().permissions & permission == 0
  }

  // ---- Choosing a thread

  /** Where the search for the next thread starts: a schedulable child, else a schedulable
      parent, else the slot after the current one. */
  function SearchStart(ts: seq<Thread>, current: int): int
    requires NULL <= current < |ts|
  {
    if current == NULL then 0
    else if CanSchedule(ts, ts[current].child) then ts[current].child
    else if CanSchedule(ts, ts[current].parent) then ts[current].parent
    else current + 1
  }

  /** The first schedulable slot among `count` slots from `start`, wrapping at the end. */
  function FirstSchedulable(ts: seq<Thread>, start: nat, count: nat): (r: int)
    requires |ts| > 0
    ensures NULL <= r < |ts|
    ensures r != NULL ==> CanSchedule(ts, r)
    decreases count
  {
    if count == 0 then NULL
    else if CanSchedule(ts, start % |ts|) then start % |ts|
    else FirstSchedulable(ts, start + 1, count - 1)
  }

  function ChooseNextThread(ts: seq<Thread>, current: int): (r: int)
    requires |ts| > 0 && NULL <= current < |ts|
  {
    FirstSchedulable(ts, SearchStart(ts, current), |ts|)
  }

  // ---- Signals

  function AlignDown(address: int): int {
    address - address % STACK_ALIGN
  }

  lemma AlignDownIs(a: int)
    ensures AlignDown(a) <= a < AlignDown(a) + STACK_ALIGN && AlignDown(a) % STACK_ALIGN == 0
  {
  }

  function StackPtr(frames: seq<Frame>, stackEnd: int): int {
    if frames == [] then AlignDown(stackEnd) else frames[|frames| - 1].sp
  }

  function Popped(frames: seq<Frame>): seq<Frame> {
    if frames == [] then [] else frames[..|frames| - 1]
  }

  /** The number of the lowest signal at or above bit `from`, or 0. */
  function NextSignal(pending: SignalMask, from: nat): (r: nat)
    decreases 32 - from
  {
    if from >= 32 then 0 else if from in pending then from + 1 else NextSignal(pending, from + 1)
  }

  predicate HandlerDone(frames: seq<Frame>) {
    frames != [] && frames[|frames| - 1].pc == HANDLER_END
  }

  function WithoutDoneHandler(frames: seq<Frame>): seq<Frame> {
    if HandlerDone(frames) then Popped(frames) else frames
  }

  /** A blank context below the stack pointer that calls the handler for `signal`. */
  function HandlerFrame(frames: seq<Frame>, stackEnd: int, signal: int, handler: int): Frame {
    Frame(StackPtr(frames, stackEnd) - CONTEXT_SIZE, HANDLER_WRAPPER, signal, handler, 0)
  }

  /** The saved contexts once signals have been checked. */
  function CheckedFrames(frames: seq<Frame>, pending: SignalMask, handler: int, stackEnd: int): seq<Frame> {
    var kept := WithoutDoneHandler(frames);
    if pending == {} || handler == 0 then kept
    else kept + [HandlerFrame(kept, stackEnd, NextSignal(pending, 0), handler)]
  }

  /** The signals still pending then: one is delivered, or all are dropped without a handler. */
  function CheckedPending(pending: SignalMask, handler: int): SignalMask {
    if handler == 0 then {} else pending - {NextSignal(pending, 0) - 1}
  }

  function CheckSignals(t: Thread): Thread {
    t.(frames := CheckedFrames(t.frames, t.pendingSignals, t.signalHandler, t.stackEnd),
       pendingSignals := CheckedPending(t.pendingSignals, t.signalHandler))
  }

  /** All that scheduling may change in a thread record. */
  predicate Rescheduled(t: Thread, u: Thread) {
    u == t.(state := u.state, frames := u.frames, pendingSignals := u.pendingSignals, errNo := u.errNo)
  }

  // ---- The user's view and the code page

  /** The running thread's errno goes back into its record. */
  function WithSavedErrNo(ts: seq<Thread>, current: int, errNo: int): seq<Thread>
    requires NULL <= current < |ts|
  {
    if current == NULL then ts else ts[current := ts[current].(errNo := errNo)]
  }

  function InfoOf(t: Thread, config: bv32): UserThreadInfo {
    UserThreadInfo(t.id, t.name, config, t.errNo)
  }

  /** Only saved contexts and errno differ between the records. */
  predicate SameLife(t: Thread, u: Thread) {
    u == t.(frames := u.frames, errNo := u.errNo)
  }

  /** Only saved contexts, errno and the user's view differ between the states. */
  ghost predicate SameLives(s: KState, r: KState) {
    && r == s.(threads := r.threads, info := r.info)
    && |r.threads| == |s.threads| && forall i | 0 <= i < |s.threads| :: SameLife(s.threads[i], r.threads[i])
  }

  function UpdateUserThreadInfo(s: KState, i: int): (r: KState)
    requires s.WF() && 0 <= i < |s.threads|
    ensures r.WF() && SameLives(s, r)
  {
    var ts := WithSavedErrNo(s.threads, s.current, s.info.errNo);
    s.(threads := ts, info := InfoOf(ts[i], s.config))
  }

  /** Writes a code page back to where it came from. */
  function WrittenBack(pages: seq<BackingPage>, page: nat, codePage: Page): seq<BackingPage>
    requires page < |pages| || page == INVALID_PAGE
  {
    if page >= |pages| then pages else pages[page := pages[page].(data := codePage)]
  }

  /** The code page to run from, and the backing pages, after a switch from a thread that holds
      page `from` to another thread that holds page `to`. */
  function SwapPagedThreads(pages: seq<BackingPage>, codePage: Page, from: nat, to: nat): (seq<BackingPage>, Page)
    requires |pages| <= INVALID_PAGE
    requires from < |pages| || from == INVALID_PAGE
    requires to < |pages| || to == INVALID_PAGE
  {
    var saved := WrittenBack(pages, from, codePage);
    (saved, if to == INVALID_PAGE then codePage else saved[to].data)
  }

  function PageOf(ts: seq<Thread>, i: int): nat
    requires NULL <= i < |ts|
  {
    if i == NULL then INVALID_PAGE else ts[i].codeBackingPage
  }

  // ---- The scheduler

  /** One thread record after a switch: the running thread is parked and its errno saved, and
      the next thread is started and its signals are checked. */
  function SwitchedThread(t: Thread, isCurrent: bool, isNext: bool, errNo: int): (r: Thread)
    ensures Rescheduled(t, r)
  {
    var parked := if isCurrent && t.state == Running then t.(state := Suspended) else t;
    var started := if isNext then CheckSignals(parked.(state := Running)) else parked;
    if isCurrent then started.(errNo := errNo) else started
  }

  function Switched(ts: seq<Thread>, current: int, next: int, errNo: int): (r: seq<Thread>)
    ensures |r| == |ts|
  {
    seq(|ts|, i requires 0 <= i < |ts| => SwitchedThread(ts[i], i == current, i == next, errNo))
  }

  /** The end of do_scheduler, once next_thread is set. */
  function SwitchTo(s: KState, next: int): (r: KState)
    requires s.WF() && 0 <= next < |s.threads|
    ensures r.WF()
  {
    var ts := Switched(s.threads, s.current, next, s.info.errNo);
    var swapped := if s.current == next then (s.pages, s.codePage)
                   else SwapPagedThreads(s.pages, s.codePage, PageOf(s.threads, s.current), PageOf(s.threads, next));
    s.(threads := ts, next := next, pages := swapped.0, codePage := swapped.1, info := InfoOf(ts[next], s.config))
  }

  /** The thread do_scheduler settles on, or NULL when there is none. */
  function Target(s: KState): (r: int)
    requires s.WF()
    ensures NULL <= r < |s.threads|
  {
    if s.next != NULL then s.next
    else
      var chosen := ChooseNextThread(s.threads, s.current);
      if chosen == NULL && CanSchedule(s.threads, ThreadId(s)) then s.current else chosen
  }

  /** choose_next_thread meets a slot whose id is not its position. */
  predicate FindsInconsistentSlot(s: KState)
    requires s.WF()
  {
    var chosen := ChooseNextThread(s.threads, s.current);
    s.next == NULL && chosen != NULL && s.threads[chosen].id != chosen
  }

  function DoScheduler(s: KState): (r: KState)
    requires s.WF()
    ensures r.WF() && r.current == s.current
    ensures r.exit.None? ==> r.next != NULL
  {
    if FindsInconsistentSlot(s) then s.Exit(1)
    else if Target(s) == NULL then s.Exit(0)
    else SwitchTo(s, Target(s))
  }

}
