/** Condition variables: each ring holds its waiting threads in FIFO order and is never full. */
module Waiters {
  import opened Basics
  import opened Threads
  import opened Scheduler
  import opened Lifecycle
  import opened Rings
  import opened Steps
  import opened CoreInvariant
  import opened Effects

  /** The ids in a ring, oldest first. */
  ghost function Queued(cv: ConditionVariable): seq<int>
    requires InBounds(cv, |cv.waiting|)
    decreases BroadcastBound(cv)
  {
    if !HasWaiter(cv) then []
    else
      BroadcastBoundDecreases(cv, |cv.waiting|);
      [cv.waiting[cv.first]] + Queued(WithoutFirstWaiter(cv))
  }

  /** The full flag is only set when the ends have met. */
  predicate FullMeansMet(cv: ConditionVariable) {
    cv.full ==> cv.first == cv.last
  }

  lemma {:induction false} QueuedLength(cv: ConditionVariable)
    requires InBounds(cv, |cv.waiting|) && FullMeansMet(cv)
    ensures |Queued(cv)| == if cv.full then |cv.waiting|
                            else if cv.first <= cv.last then cv.last - cv.first
                            else |cv.waiting| - cv.first + cv.last
    decreases BroadcastBound(cv)
  {
    if !HasWaiter(cv) {
    } else {
      BroadcastBoundDecreases(cv, |cv.waiting|);
      NextAround(cv.first, |cv.waiting|);
      QueuedLength(WithoutFirstWaiter(cv));
    }
  }

  /** Waiting appends to a ring that is not full. */
  lemma {:induction false} EnqueueAppends(cv: ConditionVariable, tid: int)
    requires InBounds(cv, |cv.waiting|) && !cv.full
    ensures InBounds(Enqueued(cv, tid), |cv.waiting|) && FullMeansMet(Enqueued(cv, tid))
    ensures Queued(Enqueued(cv, tid)) == Queued(cv) + [tid]
    decreases BroadcastBound(cv)
  {
    var n, e := |cv.waiting|, Enqueued(cv, tid);
    NextAround(cv.last, n);
    if HasWaiter(cv) {
      BroadcastBoundDecreases(cv, n);
      EnqueueKeepsFront(cv, tid);
      EnqueueAppends(WithoutFirstWaiter(cv), tid);
    } else {
      assert Queued(WithoutFirstWaiter(e)) == [];
    }
  }

  lemma EnqueueKeepsFront(cv: ConditionVariable, tid: int)
    requires InBounds(cv, |cv.waiting|) && !cv.full && HasWaiter(cv)
    ensures var e := Enqueued(cv, tid);
            && HasWaiter(e) && |e.waiting| == |cv.waiting| && e.waiting[e.first] == cv.waiting[cv.first]
            && WithoutFirstWaiter(e) == Enqueued(WithoutFirstWaiter(cv), tid)
    ensures InBounds(WithoutFirstWaiter(cv), |cv.waiting|) && !WithoutFirstWaiter(cv).full
  {
    NextAround(cv.first, |cv.waiting|);
    NextAround(cv.last, |cv.waiting|);
  }

  // ---- The invariant

  ghost predicate Distinct(q: seq<int>) {
    forall i, j | 0 <= i < j < |q| :: q[i] != q[j]
  }

  predicate IsWaiting(ts: seq<Thread>, tid: int) {
    0 <= tid < |ts| && ts[tid].id == tid && ts[tid].state == Waiting
  }

  ghost predicate HoldsWaiting(ts: seq<Thread>, q: seq<int>) {
    Distinct(q) && forall tid | tid in q :: IsWaiting(ts, tid)
  }

  /** The ids held in ring c. */
  ghost function WaitLine(s: KState, c: nat): seq<int>
    requires s.WF() && c < |s.condVars|
  {
    Queued(s.condVars[c])
  }

  /** Every ring holds distinct waiting threads, and no thread is held in two rings. */
  ghost predicate RingsHoldWaiting(s: KState) {
    && s.WF()
    && (forall c | 0 <= c < |s.condVars| :: FullMeansMet(s.condVars[c]) && HoldsWaiting(s.threads, WaitLine(s, c)))
    && (forall c, d, tid |
          0 <= c < |s.condVars| && 0 <= d < |s.condVars| && tid in WaitLine(s, c) && tid in WaitLine(s, d) :: c == d)
  }

  ghost predicate IsHeld(s: KState, tid: int)
    requires s.WF()
  {
    exists c | 0 <= c < |s.condVars| :: tid in WaitLine(s, c)
  }

  /** The event neither wakes nor cancels a thread held in a ring. */
  ghost predicate LeavesHeldAlone(s: KState, e: Event)
    requires s.WF() && s.current != NULL
  {
    e.Syscall? ==>
      && (e.call.ThreadWake? ==> !IsHeld(s, e.call.tid))
      && (e.call.ThreadCancel? && e.call.tid != CURRENT_THREAD ==> !IsHeld(s, e.call.tid))
  }

  // ---- Pigeonhole

  ghost function ToSet(q: seq<int>): set<int> {
    if q == [] then {} else ToSet(q[..|q| - 1]) + {q[|q| - 1]}
  }

  lemma {:induction false} DistinctSize(q: seq<int>)
    requires Distinct(q)
    ensures |ToSet(q)| == |q| && forall x :: x in ToSet(q) <==> x in q
  {
    if q == [] {
    } else {
      var front, last := q[..|q| - 1], q[|q| - 1];
      DistinctSize(front);
      assert q == front + [last];
    }
  }

  ghost function Below(n: nat): set<int> {
    if n == 0 then {} else Below(n - 1) + {n - 1}
  }

  lemma {:induction false} RangeSize(n: nat)
    ensures |Below(n)| == n && forall i :: i in Below(n) <==> 0 <= i < n
  {
    if n == 0 {
    } else {
      RangeSize(n - 1);
    }
  }

  lemma SubsetSize(a: set<int>, b: set<int>)
    requires a <= b
    ensures |a| <= |b|
  {
    assert b == a + (b - a);
  }

  /** The running thread waits in no ring, so fewer threads than slots do, and no ring is full. */
  lemma NoRingIsFull(s: KState, c: nat)
    requires Core(s) && RingsHoldWaiting(s) && c < |s.condVars|
    ensures !s.condVars[c].full && |WaitLine(s, c)| < |s.threads|
  {
    var q, n := WaitLine(s, c), |s.threads|;
    var all := Below(n);
    DistinctSize(q);
    RangeSize(n);
    assert HoldsWaiting(s.threads, q);
    forall x | x in ToSet(q)
      ensures x in all - {s.current}
    {
      assert IsWaiting(s.threads, x);
    }
    assert s.current in all;
    SubsetSize(ToSet(q), all - {s.current});
    QueuedLength(s.condVars[c]);
  }

  // ---- What calls do to a ring

  /** The waiting threads stay waiting and the rings stay as they are. */
  lemma RingsKept(s: KState, r: KState)
    requires RingsHoldWaiting(s) && r.WF() && r.condVars == s.condVars
    requires forall tid :: IsWaiting(s.threads, tid) && IsHeld(s, tid) ==> IsWaiting(r.threads, tid)
    ensures RingsHoldWaiting(r)
  {
    assert forall c | 0 <= c < |s.condVars| :: WaitLine(r, c) == WaitLine(s, c);
    forall c | 0 <= c < |r.condVars|
      ensures HoldsWaiting(r.threads, WaitLine(r, c))
    {
      forall tid | tid in WaitLine(r, c)
        ensures IsWaiting(r.threads, tid)
      {
        assert HoldsWaiting(s.threads, WaitLine(s, c));
        assert IsHeld(s, tid);
      }
    }
  }

  /** Only ring c has changed, and no id has joined a ring but perhaps `joined`, which no ring held. */
  lemma OneRingChanged(s: KState, r: KState, c: nat, joined: int)
    requires RingsHoldWaiting(s) && r.WF() && |r.condVars| == |s.condVars| && |r.threads| == |s.threads|
    requires c < |s.condVars|
    requires forall d | 0 <= d < |s.condVars| && d != c :: r.condVars[d] == s.condVars[d]
    requires FullMeansMet(r.condVars[c]) && HoldsWaiting(r.threads, WaitLine(r, c)) && !IsHeld(s, joined)
    requires forall tid | tid in WaitLine(r, c) :: tid in WaitLine(s, c) || tid == joined
    requires forall d, tid | 0 <= d < |s.condVars| && d != c && tid in WaitLine(s, d) :: IsWaiting(r.threads, tid)
    ensures RingsHoldWaiting(r)
  {
    assert forall d | 0 <= d < |s.condVars| && d != c :: WaitLine(r, d) == WaitLine(s, d);
    forall d | 0 <= d < |r.condVars|
      ensures FullMeansMet(r.condVars[d]) && HoldsWaiting(r.threads, WaitLine(r, d))
    {
      assert HoldsWaiting(s.threads, WaitLine(s, d));
    }
    assert forall d, tid | 0 <= d < |r.condVars| && tid in WaitLine(r, d) ::
        tid in WaitLine(s, d) || (d == c && tid == joined);
    assert forall d | 0 <= d < |s.condVars| :: joined !in WaitLine(s, d);
  }

  /** A signal wakes exactly the thread that has waited longest. */
  lemma SignalWakesOldest(s: KState, c: nat)
    requires RingsHoldWaiting(s) && c < |s.condVars| && HasWaiter(s.condVars[c])
    ensures var r := Signalled(s, c); var q := WaitLine(s, c);
            && q != [] && WaitLine(r, c) == q[1..] && IsWaiting(s.threads, q[0])
            && r.threads == s.threads[q[0] := s.threads[q[0]].(state := Suspended)]
            && r == s.(threads := r.threads, condVars := r.condVars)
            && forall d | 0 <= d < |s.condVars| && d != c :: r.condVars[d] == s.condVars[d]
  {
    var r, q := Signalled(s, c), WaitLine(s, c);
    BroadcastBoundDecreases(s.condVars[c], |s.threads|);
    assert q[1..] == Queued(WithoutFirstWaiter(s.condVars[c])) == WaitLine(r, c);
    assert HoldsWaiting(s.threads, q);
    assert q[0] in q;
  }

  lemma SignalKeepsRingsHolding(s: KState, c: nat)
    requires RingsHoldWaiting(s) && c < |s.condVars| && HasWaiter(s.condVars[c])
    ensures RingsHoldWaiting(Signalled(s, c))
  {
    SignalWakesOldest(s, c);
    assert FullMeansMet(WithoutFirstWaiter(s.condVars[c]));
    SignalKeepsRings(s, Signalled(s, c), c, WaitLine(s, c));
  }

  lemma SignalKeepsRings(s: KState, r: KState, c: nat, q: seq<int>)
    requires RingsHoldWaiting(s) && r.WF() && c < |s.condVars| && q == WaitLine(s, c) && q != []
    requires |r.condVars| == |s.condVars| && |r.threads| == |s.threads|
    requires FullMeansMet(r.condVars[c]) && WaitLine(r, c) == q[1..]
    requires forall i | 0 <= i < |s.threads| && i != q[0] :: r.threads[i] == s.threads[i]
    requires forall d | 0 <= d < |s.condVars| && d != c :: r.condVars[d] == s.condVars[d]
    ensures RingsHoldWaiting(r)
  {
    assert HoldsWaiting(s.threads, q);
    assert q[0] in q;
    assert forall tid | tid in q[1..] :: tid in q;
    assert !IsHeld(s, INVALID_THREAD) by {
      assert forall d | 0 <= d < |s.condVars| :: HoldsWaiting(s.threads, WaitLine(s, d));
    }
    forall d, tid | 0 <= d < |s.condVars| && d != c && tid in WaitLine(s, d)
      ensures IsWaiting(r.threads, tid)
    {
      assert HoldsWaiting(s.threads, WaitLine(s, d));
      assert tid != q[0];
    }
    OneRingChanged(s, r, c, INVALID_THREAD);
  }

  /** A broadcast wakes exactly the threads that waited, and empties the ring. */
  lemma {:induction false} BroadcastWakesExactly(s: KState, c: nat)
    requires RingsHoldWaiting(s) && c < |s.condVars|
    ensures var r := Broadcasted(s, c);
            && RingsHoldWaiting(r) && |r.condVars| == |s.condVars| && WaitLine(r, c) == []
            && |r.threads| == |s.threads|
            && (forall i | 0 <= i < |s.threads| ::
                  r.threads[i] == if i in WaitLine(s, c) then s.threads[i].(state := Suspended) else s.threads[i])
            && (forall d | 0 <= d < |s.condVars| && d != c :: r.condVars[d] == s.condVars[d])
    decreases BroadcastBound(s.condVars[c])
  {
    if !HasWaiter(s.condVars[c]) {
    } else {
      var q := WaitLine(s, c);
      BroadcastBoundDecreases(s.condVars[c], |s.threads|);
      SignalWakesOldest(s, c);
      SignalKeepsRingsHolding(s, c);
      BroadcastWakesExactly(Signalled(s, c), c);
      assert HoldsWaiting(s.threads, q);
      assert forall i :: i in q <==> i == q[0] || i in q[1..];
    }
  }

  /** A wait appends the caller, which no ring held, to a ring that was not full. */
  lemma WaitAppendsCaller(s: KState, c: nat)
    requires Core(s) && RingsHoldWaiting(s) && c < |s.condVars|
    ensures var r := CallEffect(s, CondVar(CvWait, Some(c)));
            && |r.condVars| == |s.condVars| && WaitLine(r, c) == WaitLine(s, c) + [s.current]
            && (forall d | 0 <= d < |s.condVars| && d != c :: r.condVars[d] == s.condVars[d])
            && r.threads == s.threads[s.current := s.Current().(state := Waiting)]
            && RingsHoldWaiting(r)
  {
    var r := CallEffect(s, CondVar(CvWait, Some(c)));
    WaitKeepsThreads(s, c);
    NoRingIsFull(s, c);
    EnqueueAppends(s.condVars[c], s.current);
    WaitKeepsRings(s, r, c);
  }

  lemma WaitKeepsRings(s: KState, r: KState, c: nat)
    requires Core(s) && RingsHoldWaiting(s) && r.WF() && c < |s.condVars| && |r.condVars| == |s.condVars|
    requires r.threads == s.threads[s.current := s.Current().(state := Waiting)]
    requires FullMeansMet(r.condVars[c]) && WaitLine(r, c) == WaitLine(s, c) + [s.current]
    requires forall d | 0 <= d < |s.condVars| && d != c :: r.condVars[d] == s.condVars[d]
    ensures RingsHoldWaiting(r)
  {
    forall d, tid | 0 <= d < |s.condVars| && tid in WaitLine(s, d)
      ensures IsWaiting(r.threads, tid) && tid != s.current
    {
      assert HoldsWaiting(s.threads, WaitLine(s, d));
    }
    assert HoldsWaiting(s.threads, WaitLine(s, c));
    assert Distinct(WaitLine(r, c)) by {
      assert forall i | 0 <= i < |WaitLine(s, c)| :: WaitLine(s, c)[i] in WaitLine(s, c);
    }
    OneRingChanged(s, r, c, s.current);
  }

  lemma InitEmptiesRing(s: KState, c: nat)
    requires RingsHoldWaiting(s) && c < |s.condVars|
    ensures var r := WithCondVar(s, c, s.condVars[c].(first := 0, last := 0, full := false));
            r.WF() && WaitLine(r, c) == [] && RingsHoldWaiting(r)
  {
    var r := WithCondVar(s, c, s.condVars[c].(first := 0, last := 0, full := false));
    assert WaitLine(r, c) == [];
    forall d | 0 <= d < |r.condVars|
      ensures FullMeansMet(r.condVars[d]) && HoldsWaiting(r.threads, WaitLine(r, d))
      ensures forall tid | tid in WaitLine(r, d) :: tid in WaitLine(s, d)
    {
      assert HoldsWaiting(s.threads, WaitLine(s, d));
    }
  }

  // ---- Steps

  lemma CondVarCallKeepsRings(s: KState, op: CondVarOp, cv: Option<nat>)
    requires Core(s) && CallIsUsable(s, CondVar(op, cv)) && RingsHoldWaiting(s)
    ensures RingsHoldWaiting(CallEffect(s, CondVar(op, cv)))
  {
    if cv.Some? && op != CvUnknown {
      var c := cv.value;
      match op {
        case CvInit => InitEmptiesRing(s, c);
        case CvSignal => if HasWaiter(s.condVars[c]) { SignalKeepsRingsHolding(s, c); }
        case CvBroadcast => BroadcastWakesExactly(s, c);
        case CvWait => WaitAppendsCaller(s, c);
        case _ =>
      }
    } else {
      RingsKept(s, CallEffect(s, CondVar(op, cv)));
    }
  }

  /** A call on no condition variable keeps the rings' threads waiting. */
  lemma OtherCallKeepsWaiting(s: KState, call: Call)
    requires Core(s) && CallIsUsable(s, call) && !call.CondVar?
    ensures var r := CallEffect(s, call);
            && r.condVars == s.condVars
            && forall tid | IsWaiting(s.threads, tid)
                 && !(call.ThreadWake? && call.tid == tid) && !(call.ThreadCancel? && call.tid == tid) ::
                 IsWaiting(r.threads, tid)
  {
    CallEffectChanges(s, call);
    ChangesKeepWaiting(s, call, CallEffect(s, call));
  }

  lemma ChangesKeepWaiting(s: KState, call: Call, r: KState)
    requires Core(s) && CallChanges(s, call, r) && !call.CondVar?
    ensures r.condVars == s.condVars
    ensures forall tid | IsWaiting(s.threads, tid)
              && !(call.ThreadWake? && call.tid == tid) && !(call.ThreadCancel? && call.tid == tid) ::
              IsWaiting(r.threads, tid)
  {
  }

  lemma CallKeepsRings(s: KState, call: Call)
    requires Core(s) && CallIsUsable(s, call) && RingsHoldWaiting(s)
    requires LeavesHeldAlone(s, Syscall(s.cpu, call, true))
    ensures RingsHoldWaiting(CallEffect(s, call))
  {
    if call.CondVar? {
      CondVarCallKeepsRings(s, call.op, call.cv);
    } else {
      OtherCallKeepsWaiting(s, call);
      RingsKeptButOne(s, CallEffect(s, call), call);
    }
  }

  lemma RingsKeptButOne(s: KState, r: KState, call: Call)
    requires Core(s) && RingsHoldWaiting(s) && r.WF() && r.condVars == s.condVars
    requires LeavesHeldAlone(s, Syscall(s.cpu, call, true))
    requires forall tid | IsWaiting(s.threads, tid)
               && !(call.ThreadWake? && call.tid == tid) && !(call.ThreadCancel? && call.tid == tid) ::
               IsWaiting(r.threads, tid)
    ensures RingsHoldWaiting(r)
  {
    RingsKept(s, r);
  }

  lemma EffectKeepsRings(s: KState, e: Event)
    requires Core(s) && (e.Syscall? ==> CallIsUsable(s, e.call)) && RingsHoldWaiting(s)
    requires e.LoadImage? ==> s.Current().codeBackingPage != INVALID_PAGE
    requires LeavesHeldAlone(s, e)
    ensures RingsHoldWaiting(Effect(s, e))
  {
    if e.Syscall? && e.stackOk {
      CallKeepsRings(s, e.call);
    } else {
      RingsKept(s, Effect(s, e));
    }
  }

  lemma TouchKeepsRings(s: KState, r: KState)
    requires RingsHoldWaiting(s) && r.WF() && OnlyTouched(s, r)
    ensures RingsHoldWaiting(r)
  {
    RingsKept(s, r);
  }

  lemma StepKeepsRings(s: KState, e: Event)
    requires Core(s) && RingsHoldWaiting(s) && Allowed(s, e) && LeavesHeldAlone(s, e) && Step(s, e).exit.None?
    ensures RingsHoldWaiting(Step(s, e))
  {
    var entered := Entered(s, e);
    EnteredTouches(s, e);
    EnteredKeepsCore(s, e);
    TouchKeepsRings(s, entered);
    assert forall c | 0 <= c < |s.condVars| :: WaitLine(entered, c) == WaitLine(s, c);
    assert forall tid :: IsHeld(entered, tid) ==> IsHeld(s, tid);
    EffectKeepsRings(entered, e);
    StepTouches(s, e);
    TouchKeepsRings(Effect(entered, e), Step(s, e));
  }

  /** What each event does to ring c. */
  ghost function NextRing(s: KState, e: Event, c: nat): seq<int>
    requires s.WF() && s.current != NULL && c < |s.condVars|
  {
    if !(e.Syscall? && e.stackOk && e.call.CondVar? && e.call.cv == Some(c)) then WaitLine(s, c)
    else
      match e.call.op
      case CvWait => WaitLine(s, c) + [s.current]
      case CvSignal => if WaitLine(s, c) == [] then [] else WaitLine(s, c)[1..]
      case CvBroadcast => []
      case CvInit => []
      case CvUnknown => WaitLine(s, c)
  }

  lemma CondVarMovesRing(s: KState, op: CondVarOp, cv: Option<nat>, c: nat)
    requires Core(s) && CallIsUsable(s, CondVar(op, cv)) && RingsHoldWaiting(s) && c < |s.condVars|
    ensures var r := CallEffect(s, CondVar(op, cv));
            c < |r.condVars| && WaitLine(r, c) == NextRing(s, Syscall(s.cpu, CondVar(op, cv), true), c)
  {
    if cv.Some? && op == CvInit {
      InitMovesRing(s, cv.value, c);
    } else if cv.Some? && op == CvSignal {
      SignalMovesRing(s, cv.value, c);
    } else if cv.Some? && op == CvBroadcast {
      BroadcastMovesRing(s, cv.value, c);
    } else if cv.Some? && op == CvWait {
      WaitAppendsCaller(s, cv.value);
    }
  }

  lemma InitMovesRing(s: KState, emptied: nat, c: nat)
    requires Core(s) && RingsHoldWaiting(s) && emptied < |s.condVars| && c < |s.condVars|
    ensures var r := CallEffect(s, CondVar(CvInit, Some(emptied)));
            c < |r.condVars| && WaitLine(r, c) == if c != emptied then WaitLine(s, c) else []
  {
    InitEmptiesRing(s, emptied);
  }

  lemma BroadcastMovesRing(s: KState, emptied: nat, c: nat)
    requires Core(s) && RingsHoldWaiting(s) && emptied < |s.condVars| && c < |s.condVars|
    ensures var r := CallEffect(s, CondVar(CvBroadcast, Some(emptied)));
            c < |r.condVars| && WaitLine(r, c) == if c != emptied then WaitLine(s, c) else []
  {
    BroadcastWakesExactly(s, emptied);
  }

  lemma SignalMovesRing(s: KState, signalled: nat, c: nat)
    requires Core(s) && RingsHoldWaiting(s) && signalled < |s.condVars| && c < |s.condVars|
    ensures var r := CallEffect(s, CondVar(CvSignal, Some(signalled))); var q := WaitLine(s, c);
            c < |r.condVars| && WaitLine(r, c) == if c != signalled then q else if q == [] then [] else q[1..]
  {
    if HasWaiter(s.condVars[signalled]) {
      SignalWakesOldest(s, signalled);
    }
  }

  lemma CallMovesRing(s: KState, call: Call, c: nat)
    requires Core(s) && CallIsUsable(s, call) && RingsHoldWaiting(s) && c < |s.condVars|
    ensures var r := CallEffect(s, call);
            c < |r.condVars| && WaitLine(r, c) == NextRing(s, Syscall(s.cpu, call, true), c)
  {
    if call.CondVar? {
      CondVarMovesRing(s, call.op, call.cv, c);
    } else {
      OtherCallKeepsWaiting(s, call);
    }
  }

  /** Rings are FIFO: a wait joins at the back, a signal removes the front. */
  lemma StepMovesRing(s: KState, e: Event, c: nat)
    requires Core(s) && RingsHoldWaiting(s) && Allowed(s, e) && Step(s, e).exit.None? && c < |s.condVars|
    ensures c < |Step(s, e).condVars| && WaitLine(Step(s, e), c) == NextRing(s, e, c)
  {
    var entered := Entered(s, e);
    EnteredTouches(s, e);
    EnteredKeepsCore(s, e);
    TouchKeepsRings(s, entered);
    SameRingMovesSame(s, entered, e, c);
    EffectMovesRing(entered, e, c);
    StepTouches(s, e);
  }

  lemma SameRingMovesSame(s: KState, x: KState, e: Event, c: nat)
    requires s.WF() && s.current != NULL && x.WF() && x.current == s.current && x.condVars == s.condVars
    requires c < |s.condVars|
    ensures NextRing(x, e, c) == NextRing(s, e, c)
  {
    assert WaitLine(x, c) == WaitLine(s, c);
  }

  lemma EffectMovesRing(s: KState, e: Event, c: nat)
    requires Core(s) && RingsHoldWaiting(s) && c < |s.condVars| && (e.Syscall? ==> CallIsUsable(s, e.call))
    requires e.LoadImage? ==> s.Current().codeBackingPage != INVALID_PAGE
    ensures c < |Effect(s, e).condVars| && WaitLine(Effect(s, e), c) == NextRing(s, e, c)
  {
    if e.Syscall? && e.stackOk {
      CallMovesRing(s, e.call, c);
    }
  }

  /** A ring could only fill up in a wait that leaves no thread to run, and so ends the kernel. */
  lemma FillingWaitEndsKernel(s: KState, e: Event, c: nat)
    requires Core(s) && RingsHoldWaiting(s) && Allowed(s, e) && c < |s.condVars|
    requires e.Syscall? && e.stackOk && e.call == CondVar(CvWait, Some(c)) && Enqueued(s.condVars[c], s.current).full
    ensures Step(s, e).exit.Some?
  {
    if Step(s, e).exit.None? {
      StepKeepsCore(s, e);
      StepKeepsRings(s, e);
      StepMovesRing(s, e, c);
      FilledRingLength(s, c);
      StepKeepsThreadCount(s, e);
      NoRingIsFull(Step(s, e), c);
    }
  }

  lemma FilledRingLength(s: KState, c: nat)
    requires Core(s) && RingsHoldWaiting(s) && c < |s.condVars| && Enqueued(s.condVars[c], s.current).full
    ensures |WaitLine(s, c)| + 1 == |s.threads|
  {
    NoRingIsFull(s, c);
    EnqueueAppends(s.condVars[c], s.current);
    QueuedLength(Enqueued(s.condVars[c], s.current));
  }

  /** Rings that start empty satisfy the invariant at boot. */
  lemma BootRingsAreEmpty(s: KState, start: StartUp)
    requires IsCold(s) && Booted(s, start).exit.None? && forall c | 0 <= c < |s.condVars| :: !HasWaiter(s.condVars[c])
    ensures RingsHoldWaiting(Booted(s, start))
  {
    BootEstablishesCore(s, start);
    FirstThreadIs(s, start);
    FirstThreadIsFound(s, start);
    FirstSwitchKeeps(WithFirstThread(s, start).0);
    EmptyRingsHoldNobody(Booted(s, start));
  }

  lemma EmptyRingsHoldNobody(s: KState)
    requires s.WF() && forall c | 0 <= c < |s.condVars| :: !HasWaiter(s.condVars[c])
    ensures RingsHoldWaiting(s)
  {
    assert forall c | 0 <= c < |s.condVars| :: WaitLine(s, c) == [];
  }

  // ---- Runs

  ghost predicate RunLeavesHeldAlone(s: KState, es: seq<Event>)
    requires IsRun(s, es)
    decreases |es|
  {
    es == [] || (LeavesHeldAlone(s, es[0]) && RunLeavesHeldAlone(Step(s, es[0]), es[1..]))
  }

  /** If held threads are woken only through their ring and never cancelled, then in every run each
      ring holds distinct waiting threads, and no ring is full while user code runs. */
  lemma {:induction false} EveryRunKeepsRings(s: KState, es: seq<Event>)
    requires Core(s) && RingsHoldWaiting(s) && IsRun(s, es) && Run(s, es).exit.None? && RunLeavesHeldAlone(s, es)
    ensures RingsHoldWaiting(Run(s, es))
    ensures forall c | 0 <= c < |Run(s, es).condVars| :: !Run(s, es).condVars[c].full
    decreases |es|
  {
    if es == [] {
      forall c | 0 <= c < |s.condVars|
        ensures !s.condVars[c].full
      {
        NoRingIsFull(s, c);
      }
    } else {
      var r := Step(s, es[0]);
      RunGoesOn(s, es);
      StepKeepsCore(s, es[0]);
      StepKeepsRings(s, es[0]);
      EveryRunKeepsRings(r, es[1..]);
    }
  }
}
