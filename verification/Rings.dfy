/** The two ring buffers: a thread's messages (src/kernel/message.c) and the threads waiting on a
    condition variable (src/kernel/condition_variable.c). */
module Rings {
  import opened Basics
  import opened Threads
  import opened Scheduler
  import opened Lifecycle

  // ---- Messages

  function IncMsgPointer(p: nat): nat
    requires p < QUEUE_SIZE
  {
    if p + 1 == QUEUE_SIZE then 0 else p + 1
  }

  predicate HasMessage(q: MessageRing) {
    q.next != q.end || q.full
  }

  function WithoutFirst(q: MessageRing): MessageRing {
    q.(next := IncMsgPointer(q.next), full := false)
  }

  function WithMessage(q: MessageRing, m: Message): MessageRing {
    var end := IncMsgPointer(q.end);
    q.(slots := q.slots[q.end := m], end := end, full := q.next == end)
  }

  /** The message the running thread would receive. */
  function Received(s: KState): Option<Message>
    requires s.WF() && s.current != NULL
  {
    var q := s.Current().messages;
    if HasMessage(q) then Some(q.slots[q.next]) else None
  }

  function GetMsgCall(s: KState, hasPointers: bool): (r: (KState, int))
    requires s.WF() && s.current != NULL
    ensures r.0.WF() && r.0.current == s.current
  {
    if !hasPointers then (s.WithErrNo(E_INVALID_ARGS), 0)
    else
      match Received(s)
      case None => (s, 0)
      case Some(_) => (s.WithThread(s.current, s.Current().(messages := WithoutFirst(s.Current().messages))), 1)
  }

  predicate Accepts(s: KState, destination: int) {
    IsValidThread(s.threads, destination) && !s.threads[destination].messages.full
  }

  function SendMsgCall(s: KState, destination: int, content: int): (r: (KState, int))
    requires s.WF()
    ensures r.0.WF() && r.0.current == s.current
  {
    if !Accepts(s, destination) then (s, 0)
    else
      var t := s.threads[destination];
      (s.WithThread(destination, t.(messages := WithMessage(t.messages, Message(ThreadId(s), content)))), 1)
  }

  // ---- Condition variables

  function WithCondVar(s: KState, c: nat, cv: ConditionVariable): KState
    requires c < |s.condVars|
  {
    s.(condVars := s.condVars[c := cv])
  }

  predicate HasWaiter(cv: ConditionVariable) {
    cv.first != cv.last || cv.full
  }

  function WithoutFirstWaiter(cv: ConditionVariable): ConditionVariable
    requires |cv.waiting| > 0
  {
    cv.(first := (cv.first + 1) % |cv.waiting|, full := false)
  }

  function Signalled(s: KState, c: nat): (r: KState)
    requires s.WF() && c < |s.condVars|
    ensures r.WF() && r.current == s.current && |r.condVars| == |s.condVars| && |r.threads| == |s.threads|
    ensures HasWaiter(s.condVars[c]) ==>
              r.condVars[c] == WithoutFirstWaiter(s.condVars[c])
  {
    var cv := s.condVars[c];
    if !HasWaiter(cv) then s
    else WithCondVar(WakeThread(s, cv.waiting[cv.first]).0, c, WithoutFirstWaiter(cv))
  }

  /** Signals until the ring is empty. */
  function Broadcasted(s: KState, c: nat): (r: KState)
    requires s.WF() && c < |s.condVars|
    ensures r.WF() && r.current == s.current && |r.condVars| == |s.condVars| && |r.threads| == |s.threads|
    decreases BroadcastBound(s.condVars[c])
  {
    if !HasWaiter(s.condVars[c]) then s
    else
      BroadcastBoundDecreases(s.condVars[c], |s.threads|);
      Broadcasted(Signalled(s, c), c)
  }

  /** A bound on a broadcast that holds for any in-range ring, even one with a stray full flag. */
  function BroadcastBound(cv: ConditionVariable): nat {
    if cv.first == cv.last then (if cv.full then |cv.waiting| + 1 else 0)
    else if cv.first < cv.last then cv.last - cv.first
    else if cv.first <= |cv.waiting| then |cv.waiting| - cv.first + cv.last
    else 0
  }

  lemma NextAround(x: nat, n: nat)
    requires x < n
    ensures (x + 1) % n == if x + 1 == n then 0 else x + 1
  {
  }

  lemma BroadcastBoundDecreases(cv: ConditionVariable, n: nat)
    requires InBounds(cv, n) && HasWaiter(cv)
    ensures BroadcastBound(WithoutFirstWaiter(cv)) < BroadcastBound(cv)
  {
    NextAround(cv.first, n);
  }

  function Enqueued(cv: ConditionVariable, tid: int): ConditionVariable
    requires InBounds(cv, |cv.waiting|)
  {
    var last := (cv.last + 1) % |cv.waiting|;
    cv.(waiting := cv.waiting[cv.last := tid], last := last, full := cv.first == last)
  }

  function CondVarCall(s: KState, op: CondVarOp, cv: Option<nat>): (r: (KState, int))
    requires s.WF() && s.current != NULL
    requires cv.Some? ==> cv.value < |s.condVars|
    ensures r.0.WF() && r.0.current == s.current
  {
    if op == CvUnknown || cv.None? then (s.WithErrNo(E_INVALID_ARGS), 0)
    else
      var c := cv.value;
      match op
      case CvInit => (WithCondVar(s, c, s.condVars[c].(first := 0, last := 0, full := false)), 1)
      case CvSignal => (Signalled(s, c), if HasWaiter(s.condVars[c]) then 1 else 0)
      case CvBroadcast => (Broadcasted(s, c), 1)
      case CvWait => (WaitThread(WithCondVar(s, c, Enqueued(s.condVars[c], ThreadId(s)))), 1)
  }
}
