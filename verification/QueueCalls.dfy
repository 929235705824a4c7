/**
 The monitor against the calls made on it: every call is answered once, by its own thread and in its
 order; what was accepted is what was pushed before the close; and only the lock and the wait hold a
 thread up.
 */
module QueueCalls {
  import opened Market
  import opened BlockingQueue
  import opened QueueProgress

  /** A call of one of the queue's three methods. */
  datatype Call = PushCall(update: MarketUpdate) | PopCall | ShutdownCall

  /** The call that a step starts, if it starts one. */
  function Started(a: Action): seq<Call> {
    match a
    case StartPush(_, u) => [PushCall(u)]
    case StartPop(_) => [PopCall]
    case StartShutdown(_) => [ShutdownCall]
    case _ => []
  }

  /** The calls that a thread makes on a schedule, in order. */
  ghost function CallsOf(n: nat, schedule: seq<Action>, t: nat): seq<Call> {
    if schedule == [] then []
    else
      var front, a := schedule[..|schedule| - 1], schedule[|schedule| - 1];
      CallsOf(n, front, t) + if Enabled(After(n, front), a) && a.t == t then Started(a) else []
  }

  /** The call that an event answers. */
  function Answered(e: Event): Call {
    match e
    case Accepted(_, u) => PushCall(u)
    case Rejected(_, u) => PushCall(u)
    case Delivered(_, _) => PopCall
    case FoundDrained(_) => PopCall
    case Closed(_) => ShutdownCall
  }

  /** The calls of a thread that have been answered, in order. */
  function AnsweredOf(events: seq<Event>, t: nat): seq<Call> {
    if events == [] then []
    else
      var e := events[|events| - 1];
      AnsweredOf(events[..|events| - 1], t) + if e.thread == t then [Answered(e)] else []
  }

  /** The call that a thread is in and that has not had its critical section yet. */
  function Pending(pc: Pc): seq<Call> {
    match pc
    case PushLock(u) => [PushCall(u)]
    case PushHeld(u) => [PushCall(u)]
    case PopLock => [PopCall]
    case PopHeld => [PopCall]
    case Asleep => [PopCall]
    case Woken => [PopCall]
    case ShutLock => [ShutdownCall]
    case ShutHeld => [ShutdownCall]
    case _ => []
  }

  lemma AnsweredStep(events: seq<Event>, e: Event, t: nat)
    ensures AnsweredOf(events + [e], t) == AnsweredOf(events, t) + if e.thread == t then [Answered(e)] else []
  {
    assert (events + [e])[..|events|] == events;
  }

  /** A step moves its own thread only; notifications and spurious wake-ups move sleepers, and only to wake them. */
  lemma OthersStay(s: State, a: Action, t: nat)
    requires Enabled(s, a) && t < |s.threads|
    ensures var after := Do(s, a).threads;
            && |after| == |s.threads|
            && (t != a.t && !a.WakeAll? && !(a.WakeOne? && t == a.sleeper) ==> after[t] == s.threads[t])
            && (t != a.t && !s.threads[t].Asleep? ==> after[t] == s.threads[t])
    ensures a.WakeAll? && s.threads[t].Asleep? ==> Do(s, a).threads[t].Woken?
    ensures a.WakeOne? && SomeAsleep(s.threads) ==>
              a.sleeper < |s.threads| && s.threads[a.sleeper].Asleep? && Do(s, a).threads[a.sleeper].Woken?
    ensures a.Spurious? ==> Do(s, a).threads[a.t].Woken?
  {
  }

  /** What a step answers and what it leaves open is what was open and what it starts. */
  lemma OwnStep(s: State, a: Action)
    requires Enabled(s, a)
    ensures var after := Do(s, a);
            && |after.threads| == |s.threads|
            && NewAnswer(s, after) + Pending(after.threads[a.t]) == Pending(s.threads[a.t]) + Started(a)
  {
    hide Pushed, Popped, Found, AwakeAll;
  }

  /** The answer that a step gives, if it gives one. */
  function NewAnswer(s: State, after: State): seq<Call> {
    if |after.events| > |s.events| then [Answered(after.events[|after.events| - 1])] else []
  }

  lemma OthersStayPending(s: State, a: Action, t: nat)
    requires Enabled(s, a) && t < |s.threads| && t != a.t
    ensures |Do(s, a).threads| == |s.threads| && Pending(Do(s, a).threads[t]) == Pending(s.threads[t])
  {
    OthersStay(s, a, t);
  }

  lemma EventsStep(s: State, a: Action, t: nat)
    requires Enabled(s, a) && t < |s.threads|
    ensures |Do(s, a).threads| == |s.threads|
    ensures AnsweredOf(Do(s, a).events, t) + Pending(Do(s, a).threads[t])
         == AnsweredOf(s.events, t) + Pending(s.threads[t]) + if a.t == t then Started(a) else []
  {
    hide Do, Enabled, Pending, Started, Follows, Answered, AnsweredOf;
    var after := Do(s, a);
    StepIsEvent(s, a);
    if after.events != s.events {
      AnsweredStep(s.events, after.events[|s.events|], t);
    }
    if a.t == t {
      OwnStep(s, a);
      var before, now := AnsweredOf(s.events, t), Pending(after.threads[t]);
      var answer := NewAnswer(s, after);
      assert AnsweredOf(after.events, t) == before + answer;
      assert before + answer + now == before + (answer + now);
      assert before + Pending(s.threads[t]) + Started(a) == before + (Pending(s.threads[t]) + Started(a));
    } else {
      OthersStayPending(s, a, t);
    }
  }

  /**
   Every call is answered once: in every reachable state, the calls that a thread has made are the
   ones that its events answer, in the same order, followed by the one that it is still in.
   */
  lemma {:induction false} EveryCallIsAnswered(n: nat, schedule: seq<Action>, t: nat)
    requires t < n
    ensures var s := After(n, schedule);
            && |s.threads| == n
            && CallsOf(n, schedule, t) == AnsweredOf(s.events, t) + Pending(s.threads[t])
  {
    hide Do, Enabled, Started;
    LockIsOwned(n, schedule);
    if schedule != [] {
      var front, a := schedule[..|schedule| - 1], schedule[|schedule| - 1];
      EveryCallIsAnswered(n, front, t);
      if Enabled(After(n, front), a) {
        EventsStep(After(n, front), a, t);
      }
    }
  }

  // ---------------------------------------------------------------- what is accepted

  /** Some shutdown has run its critical section. */
  ghost predicate ClosedBy(n: nat, schedule: seq<Action>) {
    schedule != [] &&
      var front, a := schedule[..|schedule| - 1], schedule[|schedule| - 1];
      ClosedBy(n, front) || (a.RunShutdown? && Enabled(After(n, front), a))
  }

  /** The updates of the pushes that ran their critical section before the close, in that order. */
  ghost function OpenPushes(n: nat, schedule: seq<Action>): seq<MarketUpdate> {
    if schedule == [] then []
    else
      var front, a := schedule[..|schedule| - 1], schedule[|schedule| - 1];
      if a.RunPush? && Enabled(After(n, front), a) && !ClosedBy(n, front) then
        OpenPushes(n, front) + [After(n, front).threads[a.t].update]
      else OpenPushes(n, front)
  }

  lemma AcceptedStep(s: State, a: Action)
    requires Enabled(s, a)
    ensures AcceptedIn(Do(s, a).events)
         == AcceptedIn(s.events) + if a.RunPush? && !s.guarded.shutdown then [s.threads[a.t].update] else []
    ensures Do(s, a).guarded.shutdown <==> s.guarded.shutdown || a.RunShutdown?
  {
    hide Do, AcceptedIn;
    StepIsEvent(s, a);
    if a.RunPush? {
      PushStep(s, a.t);
    } else if a.RunPop? {
      PopStep(s, a.t);
    } else {
      OtherStep(s, a);
    }
    if Do(s, a).events != s.events {
      HistoryStep(s.events, Do(s, a).events[|s.events|]);
    }
  }

  /**
   Nothing is lost and nothing is made up: in every reachable state, what was delivered followed by
   what is queued is exactly what was pushed before the close, in the order of the critical sections.
   */
  lemma {:induction false} AcceptedIsPushed(n: nat, schedule: seq<Action>)
    ensures var s := After(n, schedule);
            && (s.guarded.shutdown <==> ClosedBy(n, schedule))
            && AcceptedIn(s.events) == OpenPushes(n, schedule)
            && DeliveredIn(s.events) + s.guarded.queue == OpenPushes(n, schedule)
  {
    hide Do, Enabled, AcceptedIn;
    ReachableInv(n, schedule);
    if schedule == [] {
      assert AcceptedIn(After(n, schedule).events) == [];
    } else {
      var front, a := schedule[..|schedule| - 1], schedule[|schedule| - 1];
      AcceptedIsPushed(n, front);
      if Enabled(After(n, front), a) {
        AcceptedStep(After(n, front), a);
      }
    }
  }

  // ---------------------------------------------------------------- what holds a thread up

  /** A thread that is in a call, awake, and does not wait for the lock while somebody has it. */
  predicate MayMove(s: State, t: nat)
    requires t < |s.threads|
  {
    var pc := s.threads[t];
    && !pc.Idle? && !pc.Asleep?
    && (pc.PushLock? || pc.PopLock? || pc.Woken? || pc.ShutLock? ==> s.lock == None)
  }

  /**
   Only the lock and the wait hold a thread up: a thread outside the queue can make any call at any
   time, a sleeper can wake up by itself, and a thread in a call has a step of its own unless it
   sleeps or another thread has the lock that it wants.
   */
  lemma OnlyTheLockBlocks(n: nat, schedule: seq<Action>, t: nat)
    requires t < n
    ensures var s := After(n, schedule);
            && |s.threads| == n
            && (s.threads[t].Idle? ==>
                  && (forall u :: Enabled(s, StartPush(t, u)))
                  && Enabled(s, StartPop(t)) && Enabled(s, StartShutdown(t)))
            && (s.threads[t].Asleep? ==> Enabled(s, Spurious(t)))
            && (MayMove(s, t) <==> exists a :: Internal(a) && a.t == t && Enabled(s, a))
  {
    LockIsOwned(n, schedule);
    var s := After(n, schedule);
    if MayMove(s, t) {
      var a := OwnMove(s, t);
    }
  }

  lemma OwnMove(s: State, t: nat) returns (a: Action)
    requires t < |s.threads| && MayMove(s, t)
    ensures Internal(a) && a.t == t && Enabled(s, a)
  {
    var sleeper: nat := 0;
    if SomeAsleep(s.threads) {
      sleeper :| sleeper < |s.threads| && s.threads[sleeper].Asleep?;
    }
    a := match s.threads[t]
         case PushHeld(_) => RunPush(t)
         case PopHeld => RunPop(t)
         case ShutHeld => RunShutdown(t)
         case PushedHeld => Unlock(t)
         case ShutSetHeld => Unlock(t)
         case NotifyOne => WakeOne(t, sleeper)
         case NotifyAll => WakeAll(t)
         case _ => Acquire(t);
  }
}
