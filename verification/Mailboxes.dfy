/** A thread's message ring refines a FIFO queue of capacity 5 for as long as the thread lives. */
module Mailboxes {
  import opened Basics
  import opened Threads
  import opened Scheduler
  import opened Lifecycle
  import opened Rings
  import opened Steps
  import opened CoreInvariant
  import opened Effects

  /** A full ring's pointers have met. */
  predicate RingMet(q: MessageRing) {
    q.full ==> q.next == q.end
  }

  function Count(q: MessageRing): nat {
    if q.full then QUEUE_SIZE else (q.end + QUEUE_SIZE - q.next) % QUEUE_SIZE
  }

  /** The messages waiting in a ring, oldest first. */
  function Queue(q: MessageRing): seq<Message> {
    seq(Count(q), k requires 0 <= k => q.slots[(q.next + k) % QUEUE_SIZE])
  }

  lemma SendAppends(q: MessageRing, m: Message)
    requires RingMet(q) && !q.full
    ensures RingMet(WithMessage(q, m)) && Queue(WithMessage(q, m)) == Queue(q) + [m]
  {
    var r, n := WithMessage(q, m), Count(q);
    RoomAtEnd(q.next, q.end);
    assert Count(r) == n + 1;
    forall k | 0 <= k <= n
      ensures Queue(r)[k] == if k == n then m else q.slots[(q.next + k) % QUEUE_SIZE]
    {
      if k < n {
        DistinctSlots(q.next, q.end, k);
      }
    }
  }

  lemma RoomAtEnd(next: nat, end: nat)
    requires next < QUEUE_SIZE && end < QUEUE_SIZE
    ensures var n := (end + QUEUE_SIZE - next) % QUEUE_SIZE; var after := IncMsgPointer(end);
            && (next + n) % QUEUE_SIZE == end
            && (if after == next then n + 1 == QUEUE_SIZE else (after + QUEUE_SIZE - next) % QUEUE_SIZE == n + 1)
  {
  }

  lemma DistinctSlots(next: nat, end: nat, k: nat)
    requires next < QUEUE_SIZE && end < QUEUE_SIZE && k < (end + QUEUE_SIZE - next) % QUEUE_SIZE
    ensures (next + k) % QUEUE_SIZE != end
  {
  }

  lemma GetRemovesOldest(q: MessageRing)
    requires RingMet(q) && HasMessage(q)
    ensures RingMet(WithoutFirst(q)) && Queue(q) == [q.slots[q.next]] + Queue(WithoutFirst(q))
  {
    var r := WithoutFirst(q);
    OneFewer(q);
    assert Queue(q)[0] == q.slots[q.next];
    forall k | 0 <= k < Count(r)
      ensures Queue(q)[k + 1] == Queue(r)[k]
    {
      SlotAfterFirst(q.next, k);
    }
  }

  lemma OneFewer(q: MessageRing)
    requires RingMet(q) && HasMessage(q)
    ensures Count(q) == Count(WithoutFirst(q)) + 1
  {
  }

  lemma SlotAfterFirst(next: nat, k: nat)
    requires next < QUEUE_SIZE
    ensures (IncMsgPointer(next) + k) % QUEUE_SIZE == (next + (k + 1)) % QUEUE_SIZE
  {
    if next + 1 == QUEUE_SIZE {
      assert (next + (k + 1)) % QUEUE_SIZE == (QUEUE_SIZE + k) % QUEUE_SIZE;
    }
  }

  /** The flags say exactly when the queue is empty and when it is full. */
  lemma QueueBounds(q: MessageRing)
    requires RingMet(q)
    ensures HasMessage(q) <==> Queue(q) != []
    ensures q.full <==> |Queue(q)| == QUEUE_SIZE
  {
  }

  /** A send to a valid thread fails exactly when 5 messages are outstanding. */
  lemma SendFailsIffFull(s: KState, destination: int, content: int)
    requires s.WF() && IsValidThread(s.threads, destination) && RingMet(s.threads[destination].messages)
    ensures SendMsgCall(s, destination, content).1 == 0 <==> |Queue(s.threads[destination].messages)| == QUEUE_SIZE
  {
    QueueBounds(s.threads[destination].messages);
  }

  // ---- One step

  ghost predicate RingsMet(ts: seq<Thread>) {
    forall i | 0 <= i < |ts| :: RingMet(ts[i].messages)
  }

  /** What slot i's ring accepts in a step, with the sender's id. */
  ghost function SentTo(s: KState, e: Event, i: int): seq<Message>
    requires s.WF()
  {
    if IsCall(e) && e.call.SendMsg? && e.call.destination == i && Accepts(s, i)
    then [Message(ThreadId(s), e.call.content)] else []
  }

  /** What the thread in slot i receives in a step. */
  ghost function ReceivedBy(s: KState, e: Event, i: int): seq<Message>
    requires s.WF() && s.current != NULL
  {
    if IsCall(e) && e.call.GetMsg? && e.call.hasPointers && i == s.current && Received(s).Some?
    then [Received(s).value] else []
  }

  /** The queue of slot i moves by what the step sends to and takes from it. */
  ghost predicate QueueMoves(s: KState, e: Event, i: int, r: KState)
    requires s.WF() && s.current != NULL && 0 <= i < |s.threads|
  {
    |r.threads| == |s.threads| &&
    Queue(s.threads[i].messages) + SentTo(s, e, i) == ReceivedBy(s, e, i) + Queue(r.threads[i].messages)
  }

  lemma OthersKeepMail(s: KState, call: Call, i: int)
    requires Core(s) && CallIsUsable(s, call) && !call.SendMsg? && !call.GetMsg?
    requires 0 <= i < |s.threads| && RingsMet(s.threads)
    requires !(call.AddThread? && i == FirstReusable(s.threads, 0)) && !(call.Restart? && i == s.current)
    ensures |CallEffect(s, call).threads| == |s.threads|
    ensures CallEffect(s, call).threads[i].messages == s.threads[i].messages
  {
    CallEffectChanges(s, call);
    ChangesKeepMail(s, call, CallEffect(s, call), i);
  }

  lemma ChangesKeepMail(s: KState, call: Call, r: KState, i: int)
    requires Core(s) && CallChanges(s, call, r) && !call.SendMsg? && !call.GetMsg? && 0 <= i < |s.threads|
    requires !(call.AddThread? && i == FirstReusable(s.threads, 0)) && !(call.Restart? && i == s.current)
    ensures r.threads[i].messages == s.threads[i].messages
  {
  }

  lemma SendMovesQueue(s: KState, destination: int, content: int, i: int)
    requires Core(s) && 0 <= i < |s.threads| && RingsMet(s.threads)
    ensures var r := SendMsgCall(s, destination, content).0;
            && |r.threads| == |s.threads|
            && Queue(r.threads[i].messages)
               == Queue(s.threads[i].messages)
                  + if destination == i && Accepts(s, i) then [Message(ThreadId(s), content)] else []
  {
    if destination == i && Accepts(s, i) {
      SendAppends(s.threads[i].messages, Message(ThreadId(s), content));
    }
  }

  lemma GetMovesQueue(s: KState, hasPointers: bool, i: int)
    requires Core(s) && 0 <= i < |s.threads| && RingsMet(s.threads)
    ensures var r := GetMsgCall(s, hasPointers).0;
            && |r.threads| == |s.threads|
            && Queue(s.threads[i].messages)
               == (if hasPointers && i == s.current && Received(s).Some? then [Received(s).value] else [])
                  + Queue(r.threads[i].messages)
  {
    if hasPointers && i == s.current && Received(s).Some? {
      GetRemovesOldest(s.threads[i].messages);
    }
  }

  lemma MailCallsMoveQueues(s: KState, e: Event, i: int)
    requires Core(s) && IsCall(e) && (e.call.SendMsg? || e.call.GetMsg?)
    requires 0 <= i < |s.threads| && RingsMet(s.threads)
    ensures QueueMoves(s, e, i, Effect(s, e))
  {
    if e.call.SendMsg? {
      SendMovesQueue(s, e.call.destination, e.call.content, i);
    } else {
      GetMovesQueue(s, e.call.hasPointers, i);
    }
  }

  lemma QuietEventMovesNothing(s: KState, e: Event, i: int, r: KState)
    requires Core(s) && 0 <= i < |s.threads| == |r.threads|
    requires !(IsCall(e) && (e.call.SendMsg? || e.call.GetMsg?))
    requires r.threads[i].messages == s.threads[i].messages
    ensures QueueMoves(s, e, i, r)
  {
  }

  lemma EffectMovesQueues(s: KState, e: Event, i: int)
    requires Core(s) && (e.Syscall? ==> CallIsUsable(s, e.call))
    requires e.LoadImage? ==> s.Current().codeBackingPage != INVALID_PAGE
    requires 0 <= i < |s.threads| && RingsMet(s.threads) && !StartsLife(s, e, i)
    ensures QueueMoves(s, e, i, Effect(s, e))
  {
    if !IsCall(e) {
      NonCallKeepsMail(s, e);
      QuietEventMovesNothing(s, e, i, Effect(s, e));
    } else if e.call.SendMsg? || e.call.GetMsg? {
      MailCallsMoveQueues(s, e, i);
    } else {
      OthersKeepMail(s, e.call, i);
      QuietEventMovesNothing(s, e, i, CallEffect(s, e.call));
    }
  }

  lemma NonCallKeepsMail(s: KState, e: Event)
    requires Core(s) && !IsCall(e) && (e.Syscall? ==> CallIsUsable(s, e.call))
    requires e.LoadImage? ==> s.Current().codeBackingPage != INVALID_PAGE
    ensures var r := Effect(s, e);
            |r.threads| == |s.threads| && forall i | 0 <= i < |s.threads| ::
              r.threads[i].messages == s.threads[i].messages
  {
  }

  lemma NewLifeHasNoMail(s: KState, call: Call, i: int)
    requires Core(s) && CallIsUsable(s, call) && 0 <= i < |s.threads| && RingsMet(s.threads)
    requires (call.AddThread? && i == FirstReusable(s.threads, 0)) || (call.Restart? && i == s.current)
    ensures |CallEffect(s, call).threads| == |s.threads|
    ensures var q := CallEffect(s, call).threads[i].messages; q == s.threads[i].messages || Queue(q) == []
    ensures RingMet(CallEffect(s, call).threads[i].messages)
  {
    ResetIsEmpty(s.threads[i].messages);
    if call.AddThread? {
      AddCallOnlyAdds(s, call);
    } else {
      RestartChangesCurrent(s, call);
    }
  }

  lemma ResetIsEmpty(q: MessageRing)
    ensures var r: MessageRing := q.(next := 0, end := 0, full := false); Queue(r) == [] && RingMet(r)
  {
  }

  lemma CallKeepsMet(s: KState, call: Call, i: int)
    requires Core(s) && CallIsUsable(s, call) && 0 <= i < |s.threads| && RingsMet(s.threads)
    ensures |CallEffect(s, call).threads| == |s.threads| && RingMet(CallEffect(s, call).threads[i].messages)
  {
    if call.SendMsg? || call.GetMsg? {
      MailCallsKeepMet(s, call, i);
    } else if (call.AddThread? && i == FirstReusable(s.threads, 0)) || (call.Restart? && i == s.current) {
      NewLifeHasNoMail(s, call, i);
    } else {
      OthersKeepMail(s, call, i);
    }
  }

  lemma EffectKeepsRingsMet(s: KState, e: Event)
    requires Core(s) && (e.Syscall? ==> CallIsUsable(s, e.call))
    requires e.LoadImage? ==> s.Current().codeBackingPage != INVALID_PAGE
    requires RingsMet(s.threads)
    ensures |Effect(s, e).threads| == |s.threads| && RingsMet(Effect(s, e).threads)
  {
    if IsCall(e) {
      forall i | 0 <= i < |s.threads|
        ensures |CallEffect(s, e.call).threads| == |s.threads| && RingMet(CallEffect(s, e.call).threads[i].messages)
      {
        CallKeepsMet(s, e.call, i);
      }
      CallKeepsMet(s, e.call, 0);
    } else {
      NonCallKeepsMail(s, e);
    }
  }

  lemma MailCallsKeepMet(s: KState, call: Call, i: int)
    requires Core(s) && (call.SendMsg? || call.GetMsg?) && 0 <= i < |s.threads| && RingsMet(s.threads)
    ensures |CallEffect(s, call).threads| == |s.threads| && RingMet(CallEffect(s, call).threads[i].messages)
  {
    var q := s.threads[i].messages;
    if call.SendMsg? && call.destination == i && Accepts(s, i) {
      SendAppends(q, Message(ThreadId(s), call.content));
    } else if call.GetMsg? && i == s.current && HasMessage(q) {
      GetRemovesOldest(q);
    }
  }

  lemma EntryKeepsMoves(s: KState, e: Event, i: int)
    requires Core(s) && 0 <= i < |s.threads|
    ensures SentTo(Entered(s, e), e, i) == SentTo(s, e, i) && ReceivedBy(Entered(s, e), e, i) == ReceivedBy(s, e, i)
    ensures StartsLife(Entered(s, e), e, i) <==> StartsLife(s, e, i)
  {
    EnteredTouches(s, e);
    SameReusable(s.threads, Entered(s, e).threads, 0);
  }

  lemma StepMovesQueues(s: KState, e: Event, i: int)
    requires Core(s) && Allowed(s, e) && Step(s, e).exit.None? && RingsMet(s.threads)
    requires 0 <= i < |s.threads| && !StartsLife(s, e, i)
    ensures |Step(s, e).threads| == |s.threads| && RingsMet(Step(s, e).threads) && QueueMoves(s, e, i, Step(s, e))
  {
    var entered := Entered(s, e);
    EnteredTouches(s, e);
    EnteredKeepsCore(s, e);
    StepTouches(s, e);
    EntryKeepsMoves(s, e, i);
    EffectMovesQueues(entered, e, i);
    EffectKeepsRingsMet(entered, e);
  }

  // ---- A lifetime

  ghost predicate LivesThrough(s: KState, es: seq<Event>, i: int)
    requires IsRun(s, es)
    decreases |es|
  {
    es == [] || (!StartsLife(s, es[0], i) && LivesThrough(Step(s, es[0]), es[1..], i))
  }

  /** The messages accepted for slot i along a run. */
  ghost function AllSentTo(s: KState, es: seq<Event>, i: int): seq<Message>
    requires IsRun(s, es)
    decreases |es|
  {
    if es == [] then [] else SentTo(s, es[0], i) + AllSentTo(Step(s, es[0]), es[1..], i)
  }

  /** The messages received by the thread in slot i along a run. */
  ghost function AllReceivedBy(s: KState, es: seq<Event>, i: int): seq<Message>
    requires IsRun(s, es)
    decreases |es|
  {
    if es == [] then [] else ReceivedBy(s, es[0], i) + AllReceivedBy(Step(s, es[0]), es[1..], i)
  }

  lemma BootRingsMet(s: KState, start: StartUp)
    requires IsCold(s) && Booted(s, start).exit.None?
    ensures RingsMet(Booted(s, start).threads)
  {
    ColdRingsMet(s);
    FirstThreadIs(s, start);
    FirstThreadIsFound(s, start);
    FirstSwitchKeeps(WithFirstThread(s, start).0);
  }

  lemma ColdRingsMet(s: KState)
    requires IsCold(s)
    ensures RingsMet(s.threads)
  {
    assert forall i | 0 <= i < |s.threads| :: !s.threads[i].messages.full;
  }

  /** Over one lifetime, what was waiting and what was accepted is what was received, in order,
      followed by what still waits; nothing is lost, duplicated or reordered. */
  lemma {:induction false} MailIsFifo(s: KState, es: seq<Event>, i: int)
    requires Core(s) && RingsMet(s.threads) && IsRun(s, es) && Run(s, es).exit.None?
    requires 0 <= i < |s.threads| && LivesThrough(s, es, i)
    ensures |Run(s, es).threads| == |s.threads|
    ensures Queue(s.threads[i].messages) + AllSentTo(s, es, i)
            == AllReceivedBy(s, es, i) + Queue(Run(s, es).threads[i].messages)
    decreases |es|
  {
    if es == [] {
    } else {
      var r := Step(s, es[0]);
      RunGoesOn(s, es);
      StepKeepsCore(s, es[0]);
      StepMovesQueues(s, es[0], i);
      MailIsFifo(r, es[1..], i);
      ChainedMoves(Queue(s.threads[i].messages), Queue(r.threads[i].messages), Queue(Run(s, es).threads[i].messages),
                   SentTo(s, es[0], i), AllSentTo(r, es[1..], i), ReceivedBy(s, es[0], i),
                   AllReceivedBy(r, es[1..], i));
    }
  }

  lemma ChainedMoves<T>(a: seq<T>, b: seq<T>, c: seq<T>, in1: seq<T>, in2: seq<T>, out1: seq<T>, out2: seq<T>)
    requires a + in1 == out1 + b && b + in2 == out2 + c
    ensures a + (in1 + in2) == (out1 + out2) + c
  {
    assert a + (in1 + in2) == (a + in1) + in2 == out1 + (b + in2) == out1 + (out2 + c);
  }

  /** For a thread that starts with an empty queue, the messages received are always a prefix of
      the messages accepted for it. */
  lemma ReceivedIsPrefixOfSent(s: KState, es: seq<Event>, i: int)
    requires Core(s) && RingsMet(s.threads) && IsRun(s, es) && Run(s, es).exit.None?
    requires 0 <= i < |s.threads| && LivesThrough(s, es, i) && Queue(s.threads[i].messages) == []
    ensures AllReceivedBy(s, es, i) <= AllSentTo(s, es, i)
    ensures |AllSentTo(s, es, i)| - |AllReceivedBy(s, es, i)| <= QUEUE_SIZE
  {
    MailIsFifo(s, es, i);
    assert Queue(s.threads[i].messages) + AllSentTo(s, es, i) == AllSentTo(s, es, i);
  }
}
