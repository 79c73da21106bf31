/** Properties and configuration: what a set makes of them, and that a get reads it back. */
module Properties {
  import opened Basics
  import opened Threads
  import opened Scheduler
  import opened Lifecycle
  import opened Rings
  import opened Steps
  import opened CoreInvariant
  import opened Effects
  import opened Choices
  import opened StepParts
  import opened CallSteps
  import opened ErrNo
  import opened Answers
  import NewLives
  import SignalRuns

  // ---- Thread properties

  /** Setting property p of thread i turns the records ts into us. */
  ghost predicate IsSet(ts: seq<Thread>, us: seq<Thread>, i: int, p: Property)
    requires 0 <= i < |ts|
  {
    && |us| == |ts|
    && match p
       case PropChild(child) =>
         if IsValidThread(ts, child) then
           forall k | 0 <= k < |ts| :: us[k] == Linked(ts[k], k, i, child)
         else us == ts
       case PropName(name) =>
         OnlyAt(ts, us, i, ts[i].(name := us[i].name)) && NewLives.IsName(us[i].name, Some(name))
       case PropPermissions(remove) => OnlyAt(ts, us, i, ts[i].(permissions := ts[i].permissions & !remove))
       case PropRegisters(f) =>
         && OnlyAt(ts, us, i, ts[i].(frames := us[i].frames)) && |us[i].frames| == |ts[i].frames|
         && Popped(us[i].frames) == Popped(ts[i].frames)
         && (ts[i].frames != [] ==> TopFrame(us[i]) == f.(sp := TopFrame(ts[i]).sp))
       case PropPendingSignals(signal) =>
         && OnlyAt(ts, us, i, ts[i].(pendingSignals := us[i].pendingSignals))
         && us[i].pendingSignals == ts[i].pendingSignals + if signal == 0 then {} else {signal - 1}
       case PropSignalHandler(handler) => OnlyAt(ts, us, i, ts[i].(signalHandler := handler))
       case _ => false
  }

  /** Record t of thread k once thread i has this child. */
  function Linked(t: Thread, k: int, i: int, child: int): Thread {
    t.(child := if k == i then child else t.child, parent := if k == child then i else t.parent)
  }

  ghost predicate OnlyAt(ts: seq<Thread>, us: seq<Thread>, i: int, t: Thread)
    requires 0 <= i < |ts|
  {
    |us| == |ts| && us[i] == t && forall k | 0 <= k < |ts| && k != i :: us[k] == ts[k]
  }

  lemma ChildIsSet(s: KState, i: int, child: int)
    requires s.WF() && IsValidThread(s.threads, i)
    ensures IsSet(s.threads, WithProperty(s, i, PropChild(child)).0.threads, i, PropChild(child))
  {
  }

  lemma PermissionsAreSet(s: KState, i: int, p: Property)
    requires s.WF() && IsValidThread(s.threads, i) && p.PropPermissions?
    ensures IsSet(s.threads, WithProperty(s, i, p).0.threads, i, p)
  {
    SignalRuns.PermissionsOnly(s, i, p);
  }

  lemma RegistersAreSet(s: KState, i: int, f: Frame)
    requires s.WF() && IsValidThread(s.threads, i)
    ensures IsSet(s.threads, WithProperty(s, i, PropRegisters(f)).0.threads, i, PropRegisters(f))
  {
  }

  lemma PropertyIsSet(s: KState, i: int, p: Property)
    requires s.WF() && IsValidThread(s.threads, i) && !p.PropParent? && !p.PropState? && !p.PropUnknown?
    requires p.PropPendingSignals? ==> p.signal <= 32
    ensures IsSet(s.threads, WithProperty(s, i, p).0.threads, i, p)
  {
    if p.PropChild? {
      ChildIsSet(s, i, p.child);
    } else if p.PropPermissions? {
      PermissionsAreSet(s, i, p);
    } else if p.PropRegisters? {
      RegistersAreSet(s, i, p.registers);
    }
  }

  /** What was set is read back: a name cut to its first twelve characters, the rights that remain, the
      registers with the thread's own stack pointer, and a child together with its parent. */
  lemma SetThenGet(ts: seq<Thread>, us: seq<Thread>, i: int, p: Property)
    requires 0 <= i < |ts| && IsSet(ts, us, i, p)
    ensures match p
            case PropName(name) => exists n :: ReadProperty(us[i], p) == PropName(n) && NewLives.IsName(n, Some(name))
            case PropChild(child) =>
              IsValidThread(ts, child) ==>
                ReadProperty(us[i], p) == p && ReadProperty(us[child], PropParent(0)) == PropParent(i)
            case PropPermissions(remove) => ReadProperty(us[i], p) == PropPermissions(ts[i].permissions & !remove)
            case PropRegisters(f) =>
              ts[i].frames != [] ==>
                ReadProperty(us[i], p) == PropRegisters(f.(sp := ts[i].frames[|ts[i].frames| - 1].sp))
            case _ => true
  {
    if p.PropName? {
      assert ReadProperty(us[i], p) == PropName(us[i].name);
    }
  }

  // ---- Steps

  /** The records after a step of the running thread, but for its own saved contexts and errno. */
  function Settled(s: KState, r: KState): seq<Thread>
    requires s.WF() && s.current != NULL && |r.threads| == |s.threads|
  {
    var t := s.Current();
    r.threads[s.current := r.threads[s.current].(frames := t.frames, errNo := t.errNo)]
  }

  lemma SetEffect(x: KState, tid: int, p: Property)
    requires Core(x) && CallIsUsable(x, SetThreadProperty(tid, Some(p)))
    ensures var y := CallEffect(x, SetThreadProperty(tid, Some(p)));
            && |y.threads| == |x.threads|
            && if ReportedError(x, SetThreadProperty(tid, Some(p))) != 0 then y.threads == x.threads
               else IsValidThread(x.threads, ResolvedTid(x, tid)) && IsSet(x.threads, y.threads, ResolvedTid(x, tid), p)
  {
    SetPropertyEffect(x, SetThreadProperty(tid, Some(p)));
    if IsValidThread(x.threads, ResolvedTid(x, tid)) {
      var i := ResolvedTid(x, tid);
      if !p.PropParent? && !p.PropState? && !p.PropUnknown? {
        PropertyIsSet(x, i, p);
      }
    }
  }

  lemma SettledIs(s: KState, x: KState, y: KState, r: KState)
    requires SameForResults(s, x) && |y.threads| == |s.threads| && ReturnsFrom(y, r) && y.current == s.current
    ensures |r.threads| == |s.threads|
    ensures forall k | 0 <= k < |s.threads| && k != s.current :: Settled(s, r)[k] == y.threads[k]
    ensures var t := s.Current();
            Settled(s, r)[s.current] == y.threads[s.current].(frames := t.frames, errNo := t.errNo)
  {
  }

  /** The records x before the setting and y after it differ from ts and us only in what the running thread
      has on its stack. */
  ghost predicate DiffersOnStack(ts: seq<Thread>, xs: seq<Thread>, ys: seq<Thread>, us: seq<Thread>, c: int) {
    && 0 <= c < |ts| == |xs| == |ys| == |us|
    && (forall k | 0 <= k < |ts| && k != c :: xs[k] == ts[k] && us[k] == ys[k])
    && xs[c] == ts[c].(frames := xs[c].frames) && us[c] == ys[c].(frames := ts[c].frames, errNo := ts[c].errNo)
  }

  lemma LinkedAcross(t: Thread, x: Thread, y: Thread, u: Thread, k: int, i: int, child: int)
    requires x == t.(frames := x.frames) && u == y.(frames := t.frames, errNo := t.errNo) && y == Linked(x, k, i, child)
    ensures u == Linked(t, k, i, child)
  {
  }

  lemma ChildAcross(ts: seq<Thread>, xs: seq<Thread>, ys: seq<Thread>, us: seq<Thread>, c: int, i: int, child: int)
    requires DiffersOnStack(ts, xs, ys, us, c) && 0 <= i < |ts| && IsSet(xs, ys, i, PropChild(child))
    requires IsValidThread(ts, child)
    ensures IsSet(ts, us, i, PropChild(child))
  {
    assert IsValidThread(xs, child);
    LinkedAcross(ts[c], xs[c], ys[c], us[c], c, i, child);
  }

  lemma NoChildAcross(ts: seq<Thread>, xs: seq<Thread>, ys: seq<Thread>, us: seq<Thread>, c: int, i: int, child: int)
    requires DiffersOnStack(ts, xs, ys, us, c) && 0 <= i < |ts| && IsSet(xs, ys, i, PropChild(child))
    requires !IsValidThread(ts, child)
    ensures IsSet(ts, us, i, PropChild(child))
  {
    assert !IsValidThread(xs, child);
    assert us == ts;
  }

  lemma PermissionsAcross(ts: seq<Thread>, xs: seq<Thread>, ys: seq<Thread>, us: seq<Thread>, c: int, i: int,
                          p: Property)
    requires DiffersOnStack(ts, xs, ys, us, c) && 0 <= i < |ts| && p.PropPermissions? && IsSet(xs, ys, i, p)
    ensures IsSet(ts, us, i, p)
  {
    SameRemaining(xs[i].permissions, ts[i].permissions, p.permissions);
    RemainingAcross(ts, xs, ys, us, c, i, ts[i].permissions & !p.permissions);
  }

  lemma RemainingAcross(ts: seq<Thread>, xs: seq<Thread>, ys: seq<Thread>, us: seq<Thread>, c: int, i: int,
                        rights: bv16)
    requires DiffersOnStack(ts, xs, ys, us, c) && 0 <= i < |ts| && OnlyAt(xs, ys, i, xs[i].(permissions := rights))
    ensures OnlyAt(ts, us, i, ts[i].(permissions := rights))
  {
  }

  lemma SameRemaining(a: bv16, b: bv16, remove: bv16)
    requires a == b
    ensures a & !remove == b & !remove
  {
  }

  lemma RegistersAcross(ts: seq<Thread>, xs: seq<Thread>, ys: seq<Thread>, us: seq<Thread>, c: int, i: int, f: Frame)
    requires DiffersOnStack(ts, xs, ys, us, c) && 0 <= i < |ts| && i != c && IsSet(xs, ys, i, PropRegisters(f))
    ensures IsSet(ts, us, i, PropRegisters(f))
  {
  }

  /** The records xs before the setting and ys after it differ from ts and us only in what the running
      thread has on its stack. */
  lemma SetAcross(ts: seq<Thread>, xs: seq<Thread>, ys: seq<Thread>, us: seq<Thread>, c: int, i: int, p: Property)
    requires DiffersOnStack(ts, xs, ys, us, c) && 0 <= i < |ts| && IsSet(xs, ys, i, p)
    requires !(p.PropRegisters? && i == c)
    ensures IsSet(ts, us, i, p)
  {
    if p.PropChild? && !IsValidThread(ts, p.child) {
      NoChildAcross(ts, xs, ys, us, c, i, p.child);
    } else if p.PropChild? {
      ChildAcross(ts, xs, ys, us, c, i, p.child);
    } else if p.PropPermissions? {
      PermissionsAcross(ts, xs, ys, us, c, i, p);
    } else if p.PropRegisters? {
      RegistersAcross(ts, xs, ys, us, c, i, p.registers);
    }
  }

  /** A set answers 1 exactly if it reports no error; then the property is set, and no other record or part of a
      record changes.  With an error nothing does. */
  lemma SetPropertySets(s: KState, f: Frame, tid: int, p: Property)
    requires IsHandled(s, f, SetThreadProperty(tid, Some(p)))
    ensures var call := SetThreadProperty(tid, Some(p)); var r := Step(s, Syscall(f, call, true));
            && r.current == s.current && |r.threads| == |s.threads|
            && r.cpu == ContextAfter(s, f, call).(arg0 := Flag(ReportedError(s, call) == 0))
            && WasSet(s, Settled(s, r), tid, p)
  {
    var call := SetThreadProperty(tid, Some(p));
    QuietStays(s, call);
    AnswerArrives(s, f, call);
    EntrySameForResults(s, f);
    NewLives.EntryKeepsOthers(s, f);
    SetReturns(s, CallEntry(s, f), tid, p, Step(s, Syscall(f, call, true)));
  }

  /** What a set makes of the records, the caller's saved contexts aside. */
  ghost predicate WasSet(s: KState, us: seq<Thread>, tid: int, p: Property)
    requires s.WF() && s.current != NULL
  {
    var i := ResolvedTid(s, tid);
    if ReportedError(s, SetThreadProperty(tid, Some(p))) != 0 then us == s.threads
    else if p.PropRegisters? && i == s.current then us == s.threads
    else IsValidThread(s.threads, i) && IsSet(s.threads, us, i, p)
  }

  lemma SetReturns(s: KState, x: KState, tid: int, p: Property, r: KState)
    requires Core(s) && Core(x) && SameForResults(s, x) && CallIsUsable(x, SetThreadProperty(tid, Some(p)))
    requires forall k | 0 <= k < |s.threads| && k != s.current :: x.threads[k] == s.threads[k]
    requires var y := CallEffect(x, SetThreadProperty(tid, Some(p))); y.current == s.current && ReturnsFrom(y, r)
    ensures |r.threads| == |s.threads| && WasSet(s, Settled(s, r), tid, p)
  {
    var call := SetThreadProperty(tid, Some(p));
    SetEffect(x, tid, p);
    SameReports(s, x, call);
    assert ResolvedTid(x, tid) == ResolvedTid(s, tid);
    SetSettles(s, x, CallEffect(x, call), r, tid, p);
  }

  lemma SetSettles(s: KState, x: KState, y: KState, r: KState, tid: int, p: Property)
    requires SameForResults(s, x) && |y.threads| == |s.threads| && ReturnsFrom(y, r) && y.current == s.current
    requires forall k | 0 <= k < |s.threads| && k != s.current :: x.threads[k] == s.threads[k]
    requires if ReportedError(s, SetThreadProperty(tid, Some(p))) != 0 then y.threads == x.threads
             else IsValidThread(x.threads, ResolvedTid(s, tid)) && IsSet(x.threads, y.threads, ResolvedTid(s, tid), p)
    ensures |r.threads| == |s.threads| && WasSet(s, Settled(s, r), tid, p)
  {
    var i := ResolvedTid(s, tid);
    SettledIs(s, x, y, r);
    if ReportedError(s, SetThreadProperty(tid, Some(p))) != 0 {
      assert Settled(s, r) == s.threads;
    } else if p.PropRegisters? && i == s.current {
      OwnRegistersAcross(s, x, y, r, p);
    } else {
      SetAcross(s.threads, x.threads, y.threads, Settled(s, r), s.current, i, p);
    }
  }

  lemma OwnRegistersAcross(s: KState, x: KState, y: KState, r: KState, p: Property)
    requires SameForResults(s, x) && |y.threads| == |s.threads| && ReturnsFrom(y, r) && y.current == s.current
    requires forall k | 0 <= k < |s.threads| && k != s.current :: x.threads[k] == s.threads[k]
    requires p.PropRegisters? && IsSet(x.threads, y.threads, s.current, p)
    ensures Settled(s, r) == s.threads
  {
    SettledIs(s, x, y, r);
  }

  /** A get changes nothing, and answers 1 exactly if it reports no error. */
  lemma GetPropertyReads(s: KState, f: Frame, tid: int, p: Property, hasResult: bool)
    requires IsHandled(s, f, GetThreadProperty(tid, p, hasResult))
    ensures var call := GetThreadProperty(tid, p, hasResult); var r := Step(s, Syscall(f, call, true));
            && r.current == s.current && |r.threads| == |s.threads| && Settled(s, r) == s.threads
            && r.cpu == f.(arg0 := Flag(ReportedError(s, call) == 0))
  {
    var call := GetThreadProperty(tid, p, hasResult);
    QuietStays(s, call);
    AnswerArrives(s, f, call);
    EntrySameForResults(s, f);
    NewLives.EntryKeepsOthers(s, f);
    OutsideCallIs(CallEntry(s, f), call);
    SettledIs(s, CallEntry(s, f), CallEffect(CallEntry(s, f), call), Step(s, Syscall(f, call, true)));
  }

  // ---- Configuration

  /** The bits to disable are clear afterwards, those to enable are set unless they were to be disabled too,
      and the others are as they were. */
  lemma ConfiguredBits(config: bv32, enable: bv32, disable: bv32)
    ensures var after := (config | enable) & !disable;
            && after & disable == 0 && after & (enable & !disable) == enable & !disable
            && after & !(enable | disable) == config & !(enable | disable)
  {
  }

  lemma SetConfigIs(x: KState, config: bv32, enable: bv32, disable: bv32)
    requires Core(x) && x.config == config
    ensures var y := CallEffect(x, SetKernelConfig(enable, disable));
            y.config == if x.Current().permissions & TPERM_KCONFIG == 0 then config else (config | enable) & !disable
  {
  }

  /** Without permission nothing is configured, and with it exactly the bits named. */
  ghost predicate IsConfigured(s: KState, enable: bv32, disable: bv32, r: KState)
    requires s.WF() && s.current != NULL
  {
    r.config == if s.Current().permissions & TPERM_KCONFIG == 0 then s.config else (s.config | enable) & !disable
  }

  lemma SetConfigReturns(s: KState, x: KState, enable: bv32, disable: bv32, r: KState)
    requires Core(s) && Core(x) && SameForResults(s, x)
    requires ReturnsFrom(CallEffect(x, SetKernelConfig(enable, disable)), r)
    ensures IsConfigured(s, enable, disable, r)
  {
    SetConfigIs(x, s.config, enable, disable);
  }

  /** A configuration call without permission changes nothing, and with it exactly the bits it names. */
  lemma SetConfigConfigures(s: KState, f: Frame, enable: bv32, disable: bv32)
    requires IsHandled(s, f, SetKernelConfig(enable, disable))
    ensures var r := Step(s, Syscall(f, SetKernelConfig(enable, disable), true));
            r.current == s.current && r.cpu == f && IsConfigured(s, enable, disable, r)
  {
    var call := SetKernelConfig(enable, disable);
    QuietStays(s, call);
    AnswerArrives(s, f, call);
    EntrySameForResults(s, f);
    SetConfigReturns(s, CallEntry(s, f), enable, disable, Step(s, Syscall(f, call, true)));
  }
}
