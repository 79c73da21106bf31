/** In runs without stack errors, every live heap run belongs to a live thread. */
module HeapOwners {
  import opened Basics
  import opened BlockTags
  import opened Threads
  import opened Scheduler
  import opened Lifecycle
  import opened Rings
  import opened Steps
  import opened CoreInvariant
  import opened Effects

  predicate IsLive(ts: seq<Thread>, tid: int) {
    IsValidThread(ts, tid) && ts[tid].id == tid && !HasEnded(ts[tid])
  }

  /** Every allocated run is owned by a thread that is neither finished nor cancelled. */
  ghost predicate AllOwned(s: KState) {
    && WellFormed(s.heap)
    && forall h | 0 <= h < |s.heap| && s.heap[h].tag > 0 :: IsLive(s.threads, s.heap[h].tid)
  }

  /** The live threads stay live and the heap is the same. */
  lemma OwnersKept(s: KState, r: KState)
    requires AllOwned(s) && r.heap == s.heap
    requires forall tid :: IsLive(s.threads, tid) ==> IsLive(r.threads, tid)
    ensures AllOwned(r)
  {
  }

  /** Freeing all runs of `tid` and ending at most that thread keeps every run owned. */
  lemma OwnersKeptByExit(s: KState, r: KState, tid: int)
    requires AllOwned(s) && r.heap == FreeAll(s.heap, tid)
    requires forall k :: k != tid && IsLive(s.threads, k) ==> IsLive(r.threads, k)
    ensures AllOwned(r)
  {
  }

  lemma OwnersKeptByAllocation(s: KState, r: KState, call: HeapCall)
    requires AllOwned(s) && call.Usable(s.layout) && r.heap == call.Apply(s.heap, s.layout)
    requires r.threads == s.threads && IsLive(s.threads, call.tid)
    ensures AllOwned(r)
  {
    ApplyKeepsWellFormed(s.heap, s.layout, call);
  }

  // ---- Calls

  lemma HeapCallKeepsOwners(s: KState, call: Call)
    requires Core(s) && CallIsUsable(s, call) && AllOwned(s) && (call.Malloc? || call.Realloc? || call.Free?)
    ensures AllOwned(CallEffect(s, call))
  {
    var allowed := !HasNoPermission(s, TPERM_ALLOC);
    var heapCall := match call
      case Malloc(size) => CallMalloc(s.current, allowed, size)
      case Realloc(ptr, size) => CallRealloc(s.current, allowed, ptr, size)
      case Free(ptr) => CallFree(s.current, allowed, ptr)
      case _ => CallFreeAll(s.current);
    OwnersKeptByAllocation(s, CallEffect(s, call), heapCall);
  }

  lemma CancelKeepsOwners(s: KState, tid: int)
    requires Core(s) && AllOwned(s)
    ensures AllOwned(CallEffect(s, ThreadCancel(tid)))
  {
    var i := if tid == CURRENT_THREAD then s.Current().id else tid;
    CancelChangesSlot(s, tid);
    if IsValidThread(s.threads, i) {
      OwnersKeptByExit(s, CallEffect(s, ThreadCancel(tid)), i);
    }
  }

  lemma AddKeepsOwners(s: KState, call: Call)
    requires Core(s) && call.AddThread? && AllOwned(s)
    ensures AllOwned(CallEffect(s, call))
  {
    AddCallOnlyAdds(s, call);
    OwnersKept(s, CallEffect(s, call));
  }

  /** The slot a new thread takes owns no heap run. */
  lemma ReusedSlotOwnsNothing(s: KState, h: int)
    requires Core(s) && AllOwned(s) && FirstReusable(s.threads, 0) != NULL
    ensures !Owns(s.heap, FirstReusable(s.threads, 0), h)
  {
  }

  lemma PlainCallKeepsOwners(s: KState, call: Call)
    requires Core(s) && CallIsUsable(s, call) && AllOwned(s) && IsPlain(call)
    requires !(call.Malloc? || call.Realloc? || call.Free?)
    ensures AllOwned(CallEffect(s, call))
  {
    PlainCallKeeps(s, call);
    OwnersKept(s, CallEffect(s, call));
  }

  lemma SetPropertyKeepsOwners(s: KState, call: Call)
    requires Core(s) && AllOwned(s) && call.SetThreadProperty? && CallIsUsable(s, call)
    ensures AllOwned(CallEffect(s, call))
  {
    SetPropertyKeeps(s, call.tid, call.value);
    OwnersKept(s, CallEffect(s, call));
  }

  lemma RestartKeepsOwners(s: KState, call: Call)
    requires Core(s) && AllOwned(s) && call.Restart? && CallIsUsable(s, call)
    ensures AllOwned(CallEffect(s, call))
  {
    RestartChangesCurrent(s, call);
    OwnersKept(s, CallEffect(s, call));
  }

  lemma CallKeepsOwners(s: KState, call: Call)
    requires Core(s) && CallIsUsable(s, call) && AllOwned(s)
    ensures AllOwned(CallEffect(s, call))
  {
    match call {
      case AddThread(_, _, _, _, _) => AddKeepsOwners(s, call);
      case SetThreadProperty(_, _) => SetPropertyKeepsOwners(s, call);
      case Restart(_, _, _, _) => RestartKeepsOwners(s, call);
      case ThreadCancel(tid) => CancelKeepsOwners(s, tid);
      case Malloc(_) => HeapCallKeepsOwners(s, call);
      case Realloc(_, _) => HeapCallKeepsOwners(s, call);
      case Free(_) => HeapCallKeepsOwners(s, call);
      case _ => PlainCallKeepsOwners(s, call);
    }
  }

  lemma ExitKeepsOwners(s: KState, f: Frame)
    requires Core(s) && AllOwned(s)
    ensures AllOwned(Effect(s, ThreadExit(f)))
  {
    OwnersKeptByExit(s, Effect(s, ThreadExit(f)), s.Current().id);
  }

  /** The event is no failed stack check. */
  predicate StackIsSound(e: Event) {
    e.Syscall? ==> e.stackOk
  }

  lemma EffectKeepsOwners(s: KState, e: Event)
    requires Core(s) && (e.Syscall? ==> CallIsUsable(s, e.call)) && StackIsSound(e)
    requires e.LoadImage? ==> s.Current().codeBackingPage != INVALID_PAGE
    requires AllOwned(s)
    ensures AllOwned(Effect(s, e))
  {
    match e {
      case Syscall(_, call, _) => CallKeepsOwners(s, call);
      case ThreadExit(f) => ExitKeepsOwners(s, f);
      case _ => OwnersKept(s, Effect(s, e));
    }
  }

  lemma TouchKeepsOwners(s: KState, r: KState)
    requires AllOwned(s) && OnlyTouched(s, r)
    ensures AllOwned(r)
  {
    OwnersKept(s, r);
  }

  lemma StepKeepsOwners(s: KState, e: Event)
    requires Core(s) && Allowed(s, e) && Step(s, e).exit.None? && AllOwned(s) && StackIsSound(e)
    ensures AllOwned(Step(s, e))
  {
    var entered := Entered(s, e);
    EnteredTouches(s, e);
    EnteredKeepsCore(s, e);
    TouchKeepsOwners(s, entered);
    EffectKeepsOwners(entered, e);
    StepTouches(s, e);
    TouchKeepsOwners(Effect(entered, e), Step(s, e));
  }

  /** Nobody owns memory at boot. */
  lemma BootOwnsNothing(s: KState, start: StartUp)
    requires IsCold(s) && Booted(s, start).exit.None?
    ensures forall tid, h :: !Owns(Booted(s, start).heap, tid, h)
    ensures AllOwned(Booted(s, start))
  {
    BootEstablishesCore(s, start);
    FirstThreadIs(s, start);
    FirstThreadIsFound(s, start);
    assert forall h | 0 <= h < |s.heap| :: s.heap[h].tag == 0;
  }

  /** In every run without stack errors every live heap run is owned by a live thread; together
      with ReusedSlotOwnsNothing, no new thread ever starts with memory. */
  lemma {:induction false} EveryRunIsOwnedByTheLiving(s: KState, es: seq<Event>)
    requires Core(s) && AllOwned(s) && IsRun(s, es) && Run(s, es).exit.None?
    requires forall e | e in es :: StackIsSound(e)
    ensures AllOwned(Run(s, es))
    decreases |es|
  {
    if es == [] {
    } else {
      var r := Step(s, es[0]);
      RunGoesOn(s, es);
      StepKeepsCore(s, es[0]);
      StepKeepsOwners(s, es[0]);
      EveryRunIsOwnedByTheLiving(r, es[1..]);
    }
  }
}
