/**
 What a new life starts with: a created thread, a loader, a restarted program and the first thread run
 what they were asked to run, with the arguments, name and rights that they were given.
 */
module NewLives {
  import opened Basics
  import opened Threads
  import opened Scheduler
  import opened Lifecycle
  import opened Rings
  import opened Steps
  import opened CoreInvariant
  import opened Effects
  import opened Choices
  import opened StepParts
  import opened CallSteps
  import opened Answers
  import opened Mailboxes
  import opened SignalDelivery

  // ---- Records

  /** At most twelve characters are kept of a name. */
  predicate IsName(name: string, wanted: Option<string>) {
    match wanted
    case None => name == ""
    case Some(n) => name <= n && |name| == if |n| < 12 then |n| else 12
  }

  /** The first context of a life: thread_start, with `room` bytes kept free below the aligned stack end. */
  ghost predicate IsFirstContext(f: Frame, stackEnd: int, room: nat) {
    && f == Frame(f.sp, THREAD_START, 0, 0, 0) && f.sp % STACK_ALIGN == 0
    && exists top :: top % STACK_ALIGN == 0 && top <= stackEnd < top + STACK_ALIGN
                     && f.sp <= top - CONTEXT_SIZE - room < f.sp + STACK_ALIGN
  }

  /** What a life is asked to be. */
  datatype Life = Life(id: int, work: int, args: ThreadArgs, name: Option<string>, permissions: bv16, page: nat,
                       parent: int)

  /** The record is that of the life asked for; it handles no signal, has none pending, no mail and no child. */
  ghost predicate Lives(t: Thread, life: Life) {
    && t.id == life.id && t.work == life.work && t.args == life.args && IsName(t.name, life.name)
    && t.permissions == life.permissions && t.codeBackingPage == life.page
    && t.parent == life.parent && t.child == INVALID_THREAD
    && t.signalHandler == 0 && t.pendingSignals == {} && Queue(t.messages) == []
  }

  /** The life has not run yet. */
  ghost predicate IsUnborn(t: Thread, room: nat) {
    t.state == Init && t.errNo == 0 && |t.frames| == 1 && IsFirstContext(t.frames[0], t.stackEnd, room)
  }

  lemma FirstContext(stackEnd: int, room: nat, sp: int)
    requires sp == AlignDown(AlignDown(stackEnd) - CONTEXT_SIZE - room)
    ensures IsFirstContext(Frame(sp, THREAD_START, 0, 0, 0), stackEnd, room)
  {
    var top := AlignDown(stackEnd);
    AlignDownIs(stackEnd);
    AlignDownIs(top - CONTEXT_SIZE - room);
    assert top % STACK_ALIGN == 0 && top <= stackEnd < top + STACK_ALIGN;
  }

  lemma InitLives(t: Thread, tid: int, name: Option<string>, work: int, args: ThreadArgs, permissions: bv16)
    ensures var u := InitThread(t, tid, name, work, args, permissions);
            && Lives(u, Life(tid, work, args, name, permissions, INVALID_PAGE, INVALID_THREAD))
            && IsUnborn(u, 0) && u.stackEnd == t.stackEnd
  {
    var u := InitThread(t, tid, name, work, args, permissions);
    var top := AlignDown(t.stackEnd);
    AlignDownIs(t.stackEnd);
    assert AlignDown(top - CONTEXT_SIZE) == top - CONTEXT_SIZE;
    FirstContext(t.stackEnd, 0, u.frames[0].sp);
    assert Queue(u.messages) == [];
  }

  // ---- Creation

  /** What the slot i that a creation takes becomes. */
  ghost predicate TakesSlot(ts: seq<Thread>, us: seq<Thread>, i: int, life: Life, room: nat) {
    && |us| == |ts| && 0 <= i < |ts| && IsReusable(ts[i]) && (forall k | 0 <= k < i :: !IsReusable(ts[k]))
    && Lives(us[i], life) && IsUnborn(us[i], room) && us[i].stackEnd == ts[i].stackEnd
  }

  /** Only slot i has changed. */
  ghost predicate IsCreated(ts: seq<Thread>, us: seq<Thread>, i: int, life: Life, room: nat) {
    TakesSlot(ts, us, i, life, room) && forall k | 0 <= k < |ts| && k != i :: us[k] == ts[k]
  }

  /** The arguments of a loader: its page, the rights to remove later, and where its stack keeps the loaded
      program's arguments and the filename. */
  function LoaderArgs(p: nat, remove: bv16, stackEnd: int, filename: string): ThreadArgs {
    ThreadArgs(p, remove as int, stackEnd - 16, stackEnd - 16 - |filename| - 1)
  }

  /** A creator passes on its own permissions; the kernel at boot has them all. */
  function RightsOf(s: KState): bv16
    requires s.WF()
  {
    if s.current == NULL then 0xFFFF else s.Current().permissions
  }

  /** The loader that a creation from a file starts in slot i. */
  function LoaderLife(s: KState, i: int, filename: string, remove: bv16): Life
    requires s.WF() && 0 <= i < |s.threads|
  {
    var p := FindFreeBackingPage(s.pages, 0);
    var args := LoaderArgs(p, remove, s.threads[i].stackEnd, filename);
    Life(i, LOAD_ELF, args, Some("loader"), RightsOf(s), p, INVALID_THREAD)
  }

  /** The thread that a creation with a worker starts in slot i. */
  function WorkerLife(s: KState, i: int, worker: int, name: Option<string>, args: ThreadArgs, remove: bv16): Life
    requires s.WF()
  {
    var page := if s.current == NULL then INVALID_PAGE else s.Current().codeBackingPage;
    Life(i, worker, args, name, RightsOf(s) & !remove, page, INVALID_THREAD)
  }

  function ArgsOrNone(args: Option<ThreadArgs>): ThreadArgs {
    if args.Some? then args.value else ThreadArgs(0, 0, 0, 0)
  }

  lemma NamedIs(s: KState, worker: int, name: Option<string>, args: ThreadArgs, remove: bv16, u: Thread)
    requires s.WF() && FirstReusable(s.threads, 0) != NULL
    requires var i := FirstReusable(s.threads, 0);
             u == InitThread(s.threads[i], i, name, worker, args, CreatorPermissions(s) & !remove)
    ensures var (r, i) := AddNamedThread(s, worker, name, args, remove);
            r.threads == s.threads[i := u.(codeBackingPage := InheritedPage(s, i))]
  {
  }

  lemma NamedIsCreated(s: KState, worker: int, name: Option<string>, args: ThreadArgs, remove: bv16)
    requires s.WF() && FirstReusable(s.threads, 0) != NULL && FirstReusable(s.threads, 0) != s.current
    ensures var (r, i) := AddNamedThread(s, worker, name, args, remove);
            IsCreated(s.threads, r.threads, i, WorkerLife(s, i, worker, name, args, remove), 0)
  {
    var i := FirstReusable(s.threads, 0);
    assert CreatorPermissions(s) == RightsOf(s);
    var rights := CreatorPermissions(s) & !remove;
    var u := InitThread(s.threads[i], i, name, worker, args, rights);
    NamedIs(s, worker, name, args, remove, u);
    InitLives(s.threads[i], i, name, worker, args, rights);
  }

  lemma LoaderIsCreated(s: KState, filename: string, remove: bv16)
    requires s.WF() && FirstReusable(s.threads, 0) != NULL && FirstReusable(s.threads, 0) != s.current
    requires FindFreeBackingPage(s.pages, 0) != INVALID_PAGE
    ensures var (r, i) := AddThreadFromFile(s, filename, remove);
            && i == FirstReusable(s.threads, 0)
            && IsCreated(s.threads, r.threads, i, LoaderLife(s, i, filename, remove), 16 + |filename| + 1)
  {
    var p, i := FindFreeBackingPage(s.pages, 0), FirstReusable(s.threads, 0);
    NamedIsCreated(s, LOAD_ELF, Some("loader"), ThreadArgs(p, remove as int, 0, 0), 0);
    NothingRemoved(CreatorPermissions(s));
    var stackEnd := s.threads[i].stackEnd;
    FirstContext(stackEnd, 16 + |filename| + 1, LoaderStackPtr(stackEnd, |filename| + 1));
  }

  lemma NothingRemoved(permissions: bv16)
    ensures permissions & !(0 as bv16) == permissions
  {
  }

  /** The life that add_thread is asked for in slot i. */
  function AskedLife(s: KState, call: Call, i: int): Life
    requires s.WF() && s.current != NULL && call.AddThread? && call.flags.Some? && 0 <= i < |s.threads|
  {
    var remove := call.flags.value.removePermissions;
    if call.flags.value.isFile then LoaderLife(s, i, call.filename, remove)
    else WorkerLife(s, i, call.worker, call.name, ArgsOrNone(call.args), remove)
  }

  /** The bytes of the new thread's stack that hold its program's arguments and filename. */
  function AskedRoom(call: Call): nat
    requires call.AddThread? && call.flags.Some?
  {
    if call.flags.value.isFile then 16 + |call.filename| + 1 else 0
  }

  lemma AddEffectIs(x: KState, call: Call)
    requires Core(x) && call.AddThread? && call.flags.Some? && x.Current().permissions & TPERM_CREATE != 0
    ensures var remove := call.flags.value.removePermissions;
            CallEffect(x, call) == if call.flags.value.isFile then AddThreadFromFile(x, call.filename, remove).0
                                   else AddNamedThread(x, call.worker, call.name, ArgsOrNone(call.args), remove).0
  {
  }

  lemma CallCreates(x: KState, call: Call)
    requires Core(x) && call.AddThread? && CreatedId(x, call) != INVALID_THREAD
    ensures var i := CreatedId(x, call);
            0 <= i < |x.threads| && i != x.current
            && IsCreated(x.threads, CallEffect(x, call).threads, i, AskedLife(x, call, i), AskedRoom(call))
  {
    AddEffectIs(x, call);
    CreatedSlot(x, call);
    if call.flags.value.isFile {
      LoaderIsCreated(x, call.filename, call.flags.value.removePermissions);
    } else {
      NamedIsCreated(x, call.worker, call.name, ArgsOrNone(call.args), call.flags.value.removePermissions);
    }
  }

  lemma CreatedSlot(x: KState, call: Call)
    requires Core(x) && call.AddThread? && CreatedId(x, call) != INVALID_THREAD
    ensures var i := CreatedId(x, call);
            && i == FirstReusable(x.threads, 0) && 0 <= i < |x.threads| && i != x.current
            && (call.flags.value.isFile ==> FindFreeBackingPage(x.pages, 0) != INVALID_PAGE)
  {
  }

  lemma RefusalCreatesNothing(x: KState, call: Call)
    requires Core(x) && call.AddThread? && CreatedId(x, call) == INVALID_THREAD
    ensures CallEffect(x, call).threads == x.threads && CallEffect(x, call).pages == x.pages
  {
    if call.flags.Some? && x.Current().permissions & TPERM_CREATE != 0 {
      if call.flags.value.isFile {
        LoadIsRefused(x, call.filename, call.flags.value.removePermissions);
      }
    } else {
      CallIsRefused(x, call);
    }
  }

  lemma LoadIsRefused(x: KState, filename: string, remove: bv16)
    requires Core(x) && (!HasFreePage(x) || FirstReusable(x.threads, 0) == NULL)
    ensures var r := AddThreadFromFile(x, filename, remove).0; r.threads == x.threads && r.pages == x.pages
  {
  }

  lemma CallIsRefused(x: KState, call: Call)
    requires Core(x) && call.AddThread?
    requires call.flags.None? || x.Current().permissions & TPERM_CREATE == 0
    ensures CallEffect(x, call).threads == x.threads && CallEffect(x, call).pages == x.pages
  {
  }

  lemma SameAskedLife(s: KState, x: KState, call: Call, i: int)
    requires SameForResults(s, x) && call.AddThread? && call.flags.Some? && 0 <= i < |s.threads|
    ensures AskedLife(x, call, i) == AskedLife(s, call, i)
  {
  }

  /** add_thread answers with the lowest slot that is free, which then holds exactly the life asked for, ready
      to start; or it answers INVALID_THREAD and no other thread's record changes. */
  lemma AddThreadStarts(s: KState, f: Frame, call: Call)
    requires IsHandled(s, f, call) && call.AddThread?
    ensures var r := Step(s, Syscall(f, call, true));
            r.current == s.current && r.cpu == f.(arg0 := CreatedId(s, call)) && AddsAsked(s, call, r)
  {
    AddIsAnswered(s, f, call);
    AddIsAsked(s, f, call);
  }

  lemma AddIsAnswered(s: KState, f: Frame, call: Call)
    requires IsHandled(s, f, call) && call.AddThread?
    ensures var r := Step(s, Syscall(f, call, true)); r.current == s.current && r.cpu == f.(arg0 := CreatedId(s, call))
  {
    QuietStays(s, call);
    AnswerIs(s, f, call);
    AddAnswer(s, f, call);
  }

  lemma AddIsAsked(s: KState, f: Frame, call: Call)
    requires IsHandled(s, f, call) && call.AddThread?
    ensures AddsAsked(s, call, Step(s, Syscall(f, call, true)))
  {
    QuietStays(s, call);
    StayingStep(s, f, call);
    AddReturns(s, f, call, Step(s, Syscall(f, call, true)));
  }

  lemma AddReturns(s: KState, f: Frame, call: Call, r: KState)
    requires Core(s) && Core(CallEntry(s, f)) && call.AddThread?
    requires var y := CallEffect(CallEntry(s, f), call); y.current == s.current && ReturnsFrom(y, r)
    ensures AddsAsked(s, call, r)
  {
    EntrySameForResults(s, f);
    EntryKeepsOthers(s, f);
    if CreatedId(s, call) != INVALID_THREAD {
      CreatingReturns(s, CallEntry(s, f), call, r);
    } else {
      RefusingReturns(s, CallEntry(s, f), call, r);
    }
  }

  /** The thread asked for is in its slot, if there is one, and no other thread but the caller has changed. */
  ghost predicate AddsAsked(s: KState, call: Call, r: KState)
    requires s.WF() && s.current != NULL && call.AddThread?
  {
    var i := CreatedId(s, call);
    && |r.threads| == |s.threads|
    && (forall k | 0 <= k < |s.threads| && k != s.current && k != i :: r.threads[k] == s.threads[k])
    && (i != INVALID_THREAD ==>
          && 0 <= i < |s.threads| && i != s.current
          && TakesSlot(s.threads, r.threads, i, AskedLife(s, call, i), AskedRoom(call)))
  }

  lemma AddAnswer(s: KState, f: Frame, call: Call)
    requires s.WF() && s.current != NULL && call.AddThread?
    ensures CallIsUsable(s, call) && Answered(s, f, call) == f.(arg0 := CreatedId(s, call))
  {
  }

  lemma CreatingReturns(s: KState, x: KState, call: Call, r: KState)
    requires Core(s) && Core(x) && call.AddThread? && CreatedId(s, call) != INVALID_THREAD && SameForResults(s, x)
    requires forall k | 0 <= k < |s.threads| && k != s.current :: x.threads[k] == s.threads[k]
    requires CallEffect(x, call).current == s.current && ReturnsFrom(CallEffect(x, call), r)
    ensures AddsAsked(s, call, r)
  {
    var i := CreatedId(s, call);
    SameCreatedId(s, x, call);
    CallCreates(x, call);
    SameAskedLife(s, x, call, i);
    CreatedAcross(s, x, CallEffect(x, call), r, i, AskedLife(s, call, i), AskedRoom(call));
  }

  lemma RefusingReturns(s: KState, x: KState, call: Call, r: KState)
    requires Core(s) && Core(x) && call.AddThread? && CreatedId(s, call) == INVALID_THREAD && SameForResults(s, x)
    requires forall k | 0 <= k < |s.threads| && k != s.current :: x.threads[k] == s.threads[k]
    requires CallEffect(x, call).current == s.current && ReturnsFrom(CallEffect(x, call), r)
    ensures AddsAsked(s, call, r)
  {
    SameCreatedId(s, x, call);
    RefusalCreatesNothing(x, call);
    RefusedAcross(s, x, CallEffect(x, call), r);
  }

  lemma EntryKeepsOthers(s: KState, f: Frame)
    requires s.WF() && s.current != NULL
    ensures var x := CallEntry(s, f);
            && |x.threads| == |s.threads|
            && forall k | 0 <= k < |s.threads| && k != s.current :: x.threads[k] == s.threads[k]
  {
  }

  lemma RefusedAcross(s: KState, x: KState, y: KState, r: KState)
    requires |x.threads| == |s.threads| && y.threads == x.threads && ReturnsFrom(y, r) && y.current == s.current
    requires forall k | 0 <= k < |s.threads| && k != s.current :: x.threads[k] == s.threads[k]
    ensures |r.threads| == |s.threads|
    ensures forall k | 0 <= k < |s.threads| && k != s.current :: r.threads[k] == s.threads[k]
  {
  }

  lemma CreatedAcross(s: KState, x: KState, y: KState, r: KState, i: int, life: Life, room: nat)
    requires SameForResults(s, x) && IsCreated(x.threads, y.threads, i, life, room) && i != s.current
    requires ReturnsFrom(y, r) && y.current == s.current
    requires forall k | 0 <= k < |s.threads| && k != s.current :: x.threads[k] == s.threads[k]
    ensures TakesSlot(s.threads, r.threads, i, life, room)
    ensures forall k | 0 <= k < |s.threads| && k != s.current && k != i :: r.threads[k] == s.threads[k]
  {
    forall k | 0 <= k < i
      ensures !IsReusable(s.threads[k])
    {
      assert !IsReusable(x.threads[k]);
    }
  }

  // ---- Restart

  /** The life of the program that thread t restarts as: it keeps its id, parent and page. */
  function ProgramLife(t: Thread, worker: int, name: Option<string>, args: ThreadArgs, rights: bv16): Life {
    Life(t.id, worker, args, name, rights, t.codeBackingPage, t.parent)
  }

  /** The life that a restart asks for. */
  function RestartedLife(t: Thread, call: Call): Life
    requires call.Restart?
  {
    ProgramLife(t, call.worker, call.name, call.newArgs, t.permissions & !call.removePermissions)
  }

  lemma RestartEffectIs(x: KState, call: Call)
    requires Core(x) && CallIsUsable(x, call) && call.Restart?
    ensures CallEffect(x, call) == RestartCall(x, call.worker, call.name, call.newArgs, call.removePermissions)
  {
  }

  lemma RestartIs(x: KState, worker: int, name: Option<string>, args: ThreadArgs, remove: bv16, rights: bv16)
    requires Core(x) && x.Current().codeBackingPage != INVALID_PAGE && rights == x.Current().permissions & !remove
    ensures var y := RestartCall(x, worker, name, args, remove); var t := x.Current();
            var u := InitThread(t, t.id, name, worker, args, rights);
            && y == x.(threads := y.threads, codePage := y.codePage)
            && y.threads == x.threads[x.current := u.(parent := t.parent, codeBackingPage := t.codeBackingPage)]
  {
  }

  lemma RestartGives(x: KState, worker: int, name: Option<string>, args: ThreadArgs, remove: bv16, rights: bv16)
    requires Core(x) && x.Current().codeBackingPage != INVALID_PAGE && rights == x.Current().permissions & !remove
    ensures var y := RestartCall(x, worker, name, args, remove); var t := x.Current(); var u := y.threads[x.current];
            && y == x.(threads := y.threads, codePage := y.codePage) && |y.threads| == |x.threads|
            && Lives(u, ProgramLife(t, worker, name, args, rights)) && IsUnborn(u, 0) && u.stackEnd == t.stackEnd
  {
    RestartIs(x, worker, name, args, remove, rights);
    InitLives(x.Current(), x.Current().id, name, worker, args, rights);
  }

  lemma RestartLives(x: KState, call: Call, own: bv16)
    requires Core(x) && CallIsUsable(x, call) && call.Restart? && own == x.Current().permissions
    ensures var y := CallEffect(x, call); var t := x.Current(); var u := y.threads[x.current];
            && |y.threads| == |x.threads| && y.current == x.current && y.next == NULL
            && Lives(u, ProgramLife(t, call.worker, call.name, call.newArgs, own & !call.removePermissions))
            && IsUnborn(u, 0) && u.stackEnd == t.stackEnd
  {
    RestartEffectIs(x, call);
    RestartGives(x, call.worker, call.name, call.newArgs, call.removePermissions, own & !call.removePermissions);
  }

  /** A restart brings the running thread to the start of the life asked for, in the middle of which it is
      when the kernel is left: at the first instruction, with an empty stack. */
  lemma RestartStarts(s: KState, f: Frame, call: Call)
    requires IsHandled(s, f, call) && call.Restart?
    ensures var r := Step(s, Syscall(f, call, true));
            && r.current == s.current && |r.threads| == |s.threads|
            && Lives(r.Current(), RestartedLife(s.Current(), call)) && r.Current().state == Init
            && r.Current().frames == [] && IsFirstContext(r.cpu, s.Current().stackEnd, 0)
  {
    var x := CallEntry(s, f);
    CallStepIs(s, f, call);
    EntryIs(s, f);
    assert x.Current() == s.Current().(frames := x.Current().frames);
    RestartLives(x, call, s.Current().permissions);
    RestartReturns(x, Saved(s, f), call);
    ReturnIs(Handled(x, Saved(s, f), call));
  }

  lemma RestartReturns(x: KState, before: KState, call: Call)
    requires Core(x) && CallIsUsable(x, call) && call.Restart? && before.WF() && before.current != NULL
    requires var y := CallEffect(x, call);
             && |y.threads| == |x.threads| && y.current == x.current && y.next == NULL
             && |y.threads[x.current].frames| == 1
    ensures var z := Handled(x, before, call); var u := CallEffect(x, call).threads[x.current];
            && z.exit.None? && z.next == x.current && |z.threads| == |x.threads|
            && z.threads[x.current] == u.(errNo := z.threads[x.current].errNo)
  {
  }

  // ---- Boot

  /** The life of the first thread. */
  function FirstLife(s: KState, start: StartUp): Life
    requires s.WF()
  {
    match start
    case BuiltIn(setup) => WorkerLife(s, 0, setup, None, ThreadArgs(0, 0, 0, 0), 0)
    case Program(filename) => LoaderLife(s, 0, filename, 0)
  }

  lemma FirstThreadLives(s: KState, start: StartUp)
    requires IsCold(s) && WithFirstThread(s, start).1 != INVALID_THREAD
    ensures var x := WithFirstThread(s, start).0; var room := if start.Program? then 16 + |start.filename| + 1 else 0;
            && |x.threads| == |s.threads| && Lives(x.threads[0], FirstLife(s, start)) && IsUnborn(x.threads[0], room)
            && x.threads[0].stackEnd == s.threads[0].stackEnd
  {
    assert IsReusable(s.threads[0]);
    match start
    case BuiltIn(setup) => NamedIsCreated(s, setup, None, ThreadArgs(0, 0, 0, 0), 0);
    case Program(filename) => LoaderIsCreated(s, filename, 0);
  }

  lemma FirstSwitchStarts(x: KState)
    requires x.WF() && x.current == NULL && CanSchedule(x.threads, 0) && x.threads[0].pendingSignals == {}
    requires |x.threads[0].frames| == 1 && x.threads[0].frames[0].pc == THREAD_START
    ensures var r := Resumed(SwitchTo(x, 0)); var t := x.threads[0];
            && r.current == 0 && r.cpu == t.frames[0] && |r.threads| == |x.threads|
            && r.threads[0] == t.(state := Running, frames := [])
  {
    assert SwitchTo(x, 0).threads[0] == SwitchedThread(x.threads[0], false, true, x.info.errNo);
  }

  /** The kernel starts with the setup thread, or with a loader for its program, at its first instruction. */
  lemma BootStarts(s: KState, start: StartUp)
    requires IsCold(s) && Booted(s, start).exit.None?
    ensures var r := Booted(s, start); var room := if start.Program? then 16 + |start.filename| + 1 else 0;
            && r.current == 0 && |r.threads| == |s.threads| && Lives(r.threads[0], FirstLife(s, start))
            && r.threads[0].state == Running && r.threads[0].frames == []
            && IsFirstContext(r.cpu, s.threads[0].stackEnd, room)
  {
    BootEstablishesCore(s, start);
    FirstThreadIsFound(s, start);
    FirstThreadIs(s, start);
    FirstThreadLives(s, start);
    FirstSwitchStarts(WithFirstThread(s, start).0);
  }

  // ---- Whole lives

  lemma StepKeepsWork(s: KState, e: Event, i: int)
    requires Core(s) && Allowed(s, e) && Step(s, e).exit.None? && 0 <= i < |s.threads| && !StartsLife(s, e, i)
    ensures |Step(s, e).threads| == |s.threads|
    ensures SameWork(s.threads[i], Step(s, e).threads[i])
  {
    var x := Entered(s, e);
    EnteredTouches(s, e);
    EnteredKeepsCore(s, e);
    EntryStartsSame(s, e, i);
    EffectKeepsWork(x, e, i);
    StepTouches(s, e);
    TouchedKeepsWork(Effect(x, e), Step(s, e), i);
  }

  lemma EntryStartsSame(s: KState, e: Event, i: int)
    requires s.WF() && s.current != NULL
    ensures StartsLife(Entered(s, e), e, i) <==> StartsLife(s, e, i)
  {
    EnteredTouches(s, e);
    SameReusable(s.threads, Entered(s, e).threads, 0);
  }

  lemma TouchedKeepsWork(x: KState, r: KState, i: int)
    requires OnlyTouched(x, r) && 0 <= i < |x.threads|
    ensures SameWork(x.threads[i], r.threads[i])
  {
  }

  predicate SameWork(t: Thread, u: Thread) {
    u.work == t.work && u.args == t.args
  }

  lemma EffectKeepsWork(s: KState, e: Event, i: int)
    requires Core(s) && (e.Syscall? ==> CallIsUsable(s, e.call)) && 0 <= i < |s.threads| && !StartsLife(s, e, i)
    requires e.LoadImage? ==> s.Current().codeBackingPage != INVALID_PAGE
    ensures |Effect(s, e).threads| == |s.threads| && SameWork(s.threads[i], Effect(s, e).threads[i])
  {
    if IsCall(e) {
      CallEffectChanges(s, e.call);
      ChangesKeepWork(s, e.call, CallEffect(s, e.call), i);
    }
  }

  lemma ChangesKeepWork(s: KState, call: Call, r: KState, i: int)
    requires Core(s) && CallChanges(s, call, r) && 0 <= i < |s.threads|
    requires !StartsLife(s, Syscall(s.cpu, call, true), i)
    ensures SameWork(s.threads[i], r.threads[i])
  {
  }

  /** In every run a life keeps the function and the arguments it was started with. */
  lemma {:induction false} EveryRunKeepsWork(s: KState, es: seq<Event>, i: int)
    requires Core(s) && IsRun(s, es) && Run(s, es).exit.None? && 0 <= i < |s.threads| && LivesThrough(s, es, i)
    ensures |Run(s, es).threads| == |s.threads| && SameWork(s.threads[i], Run(s, es).threads[i])
    decreases |es|
  {
    if es == [] {
    } else {
      RunGoesOn(s, es);
      StepKeepsCore(s, es[0]);
      StepKeepsWork(s, es[0], i);
      EveryRunKeepsWork(Step(s, es[0]), es[1..], i);
    }
  }

  /** In every run after its creation in which nobody sets its registers, a thread is first resumed at the
      first context of the life that was asked for. */
  lemma CreatedThreadStarts(s: KState, f: Frame, call: Call, es: seq<Event>)
    requires IsHandled(s, f, call) && call.AddThread? && CreatedId(s, call) != INVALID_THREAD
    requires LeavesLifeAlone(Step(s, Syscall(f, call, true)), es, CreatedId(s, call))
    ensures StartsAsAsked(s, call, Step(s, Syscall(f, call, true)), es)
  {
    var e := Syscall(f, call, true);
    AddThreadStarts(s, f, call);
    StepKeepsCore(s, e);
    AddedStarts(s, call, Step(s, e), es);
  }

  ghost predicate LeavesLifeAlone(r: KState, es: seq<Event>, i: int) {
    && IsRun(r, es)
    && (0 <= i < |r.threads| && r.threads[i].frames != [] ==> RunLeavesWaitingAlone(r, es, i, r.threads[i].frames))
  }

  ghost predicate StartsAsAsked(s: KState, call: Call, r: KState, es: seq<Event>)
    requires s.WF() && s.current != NULL && call.AddThread? && IsRun(r, es)
  {
    var i := CreatedId(s, call);
    && call.flags.Some? && 0 <= i < |s.threads| == |r.threads| && |r.threads[i].frames| == 1
    && IsFirstContext(r.threads[i].frames[0], s.threads[i].stackEnd, AskedRoom(call))
    && WaitsOrResumes(r, es, i, r.threads[i].frames)
  }

  lemma AddedStarts(s: KState, call: Call, r: KState, es: seq<Event>)
    requires Core(s) && call.AddThread? && CreatedId(s, call) != INVALID_THREAD && AddsAsked(s, call, r) && Core(r)
    requires LeavesLifeAlone(r, es, CreatedId(s, call))
    ensures StartsAsAsked(s, call, r, es)
  {
    var i := CreatedId(s, call);
    InterruptedCodeResumesIntact(r, es, i, r.threads[i].frames);
  }
}
