/**
 The blocking queue between the exchange sessions and the aggregator: its critical sections on the
 guarded fields, and a monitor over any number of threads that run them.
 */
module BlockingQueue {
  import opened Market

  /** The fields that the mutex guards. */
  datatype Guarded = Guarded(queue: seq<MarketUpdate>, shutdown: bool)

  /** What a consumer finds when it holds the lock. */
  datatype Finding = MustWait | Ended | Got(update: MarketUpdate)

  /** The critical section of `push`: refused after shutdown, otherwise appended. */
  function Pushed(g: Guarded, update: MarketUpdate): Guarded {
    if g.shutdown then g else g.(queue := g.queue + [update])
  }

  /** The critical section of `pop`: the wait predicate, the drained test, then the front. */
  function Found(g: Guarded): Finding {
    if !(g.shutdown || g.queue != []) then MustWait
    else if g.shutdown && g.queue == [] then Ended
    else Got(g.queue[0])
  }

  function Popped(g: Guarded): Guarded {
    if Found(g).Got? then g.(queue := g.queue[1..]) else g
  }

  /** The queue object; every method is one section executed with the mutex held. */
  class MarketDataQueue {
    var queue: seq<MarketUpdate>
    var shutdown: bool

    ghost function Guards(): Guarded
      reads this
    {
      Guarded(queue, shutdown)
    }

    constructor ()
      ensures Guards() == Guarded([], false)
    {
      queue, shutdown := [], false;
    }

    method PushSection(update: MarketUpdate) returns (accepted: bool)
      modifies this
      ensures accepted == !old(shutdown) && shutdown == old(shutdown)
      ensures queue == if accepted then old(queue) + [update] else old(queue)
      ensures Guards() == Pushed(old(Guards()), update)
    {
      if shutdown {
        return false;
      }
      queue := queue + [update];
      return true;
    }

    /** Runs from the wait predicate to the return; `MustWait` sends the caller to sleep. */
    method PopSection() returns (finding: Finding)
      modifies this
      ensures finding.MustWait? <==> old(queue) == [] && !old(shutdown)
      ensures finding.Ended? <==> old(queue) == [] && old(shutdown)
      ensures old(queue) == (if finding.Got? then [finding.update] else []) + queue && shutdown == old(shutdown)
      ensures finding == Found(old(Guards()))
      ensures Guards() == Popped(old(Guards()))
    {
      if !(shutdown || queue != []) {
        return MustWait;
      }
      if shutdown && queue == [] {
        return Ended;
      }
      finding := Got(queue[0]);
      queue := queue[1..];
    }

    method ShutdownSection()
      modifies this
      ensures shutdown && queue == old(queue)
    {
      shutdown := true;
    }
  }

  // ---------------------------------------------------------------- threads

  /** Where a thread is. The `Held` states are the ones inside the lock. */
  datatype Pc =
    | Idle
    | PushLock(update: MarketUpdate)
    | PushHeld(update: MarketUpdate)
    | PushedHeld
    | NotifyOne
    | PopLock
    | PopHeld
    | Asleep
    | Woken
    | ShutLock
    | ShutHeld
    | ShutSetHeld
    | NotifyAll

  /** What the callers of the queue observe, in the order of the critical sections. */
  datatype Event =
    | Accepted(thread: nat, update: MarketUpdate)
    | Rejected(thread: nat, update: MarketUpdate)
    | Delivered(thread: nat, update: MarketUpdate)
    | FoundDrained(thread: nat)
    | Closed(thread: nat)

  datatype State = State(threads: seq<Pc>, lock: Option<nat>, guarded: Guarded, events: seq<Event>)

  /** One atomic step of one thread; `Spurious` is a wake-up that nobody asked for. */
  datatype Action =
    | StartPush(t: nat, update: MarketUpdate)
    | StartPop(t: nat)
    | StartShutdown(t: nat)
    | Acquire(t: nat)
    | RunPush(t: nat)
    | RunPop(t: nat)
    | RunShutdown(t: nat)
    | Unlock(t: nat)
    | WakeOne(t: nat, sleeper: nat)
    | WakeAll(t: nat)
    | Spurious(t: nat)

  function Initial(n: nat): State {
    State(seq(n, _ => Idle), None, Guarded([], false), [])
  }

  predicate IsHeld(pc: Pc) {
    pc.PushHeld? || pc.PushedHeld? || pc.PopHeld? || pc.ShutHeld? || pc.ShutSetHeld?
  }

  predicate WantsLock(pc: Pc) {
    pc.PushLock? || pc.PopLock? || pc.Woken? || pc.ShutLock?
  }

  ghost predicate SomeAsleep(threads: seq<Pc>) {
    exists i :: 0 <= i < |threads| && threads[i].Asleep?
  }

  ghost predicate Enabled(s: State, a: Action) {
    && a.t < |s.threads|
    && var pc := s.threads[a.t];
       match a
       case StartPush(_, _) => pc.Idle?
       case StartPop(_) => pc.Idle?
       case StartShutdown(_) => pc.Idle?
       case Acquire(_) => WantsLock(pc) && s.lock == None
       case RunPush(_) => pc.PushHeld?
       case RunPop(_) => pc.PopHeld?
       case RunShutdown(_) => pc.ShutHeld?
       case Unlock(_) => pc.PushedHeld? || pc.ShutSetHeld?
       case WakeOne(_, sleeper) =>
         pc.NotifyOne? && (SomeAsleep(s.threads) ==> sleeper < |s.threads| && s.threads[sleeper].Asleep?)
       case WakeAll(_) => pc.NotifyAll?
       case Spurious(_) => pc.Asleep?
  }

  function Awake(pc: Pc): Pc {
    if pc.Asleep? then Woken else pc
  }

  function AwakeAll(threads: seq<Pc>): (r: seq<Pc>)
    ensures |r| == |threads|
    ensures forall i :: 0 <= i < |threads| ==> r[i] == Awake(threads[i])
  {
    seq(|threads|, i requires 0 <= i < |threads| => Awake(threads[i]))
  }

  function Acquired(pc: Pc): Pc {
    match pc
    case PushLock(u) => PushHeld(u)
    case PopLock => PopHeld
    case Woken => PopHeld
    case ShutLock => ShutHeld
    case _ => pc
  }

  ghost function Do(s: State, a: Action): State
    requires Enabled(s, a)
  {
    var pc := s.threads[a.t];
    match a
    case StartPush(t, u) => s.(threads := s.threads[t := PushLock(u)])
    case StartPop(t) => s.(threads := s.threads[t := PopLock])
    case StartShutdown(t) => s.(threads := s.threads[t := ShutLock])
    case Acquire(t) => s.(threads := s.threads[t := Acquired(pc)], lock := Some(t))
    case RunPush(t) =>
      if s.guarded.shutdown then
        s.(threads := s.threads[t := Idle], lock := None, guarded := Pushed(s.guarded, pc.update),
           events := s.events + [Rejected(t, pc.update)])
      else
        s.(threads := s.threads[t := PushedHeld], guarded := Pushed(s.guarded, pc.update),
           events := s.events + [Accepted(t, pc.update)])
    case RunPop(t) =>
      (match Found(s.guarded)
       case MustWait => s.(threads := s.threads[t := Asleep], lock := None, guarded := Popped(s.guarded))
       case Ended =>
         s.(threads := s.threads[t := Idle], lock := None, guarded := Popped(s.guarded),
            events := s.events + [FoundDrained(t)])
       case Got(u) =>
         s.(threads := s.threads[t := Idle], lock := None, guarded := Popped(s.guarded),
            events := s.events + [Delivered(t, u)]))
    case RunShutdown(t) =>
      s.(threads := s.threads[t := ShutSetHeld], guarded := s.guarded.(shutdown := true),
         events := s.events + [Closed(t)])
    case Unlock(t) => s.(threads := s.threads[t := if pc.PushedHeld? then NotifyOne else NotifyAll], lock := None)
    case WakeOne(t, sleeper) =>
      s.(threads :=
           if SomeAsleep(s.threads) then s.threads[t := Idle][sleeper := Woken]
           else s.threads[t := Idle])
    case WakeAll(t) => s.(threads := AwakeAll(s.threads[t := Idle]))
    case Spurious(t) => s.(threads := s.threads[t := Woken])
  }

  /** The state after a schedule; a step that is not possible at its turn is skipped. */
  ghost function After(n: nat, schedule: seq<Action>): State {
    if schedule == [] then Initial(n)
    else
      var before, a := After(n, schedule[..|schedule| - 1]), schedule[|schedule| - 1];
      if Enabled(before, a) then Do(before, a) else before
  }

  // ---------------------------------------------------------------- history

  function AcceptedIn(events: seq<Event>): seq<MarketUpdate> {
    if events == [] then []
    else
      var e := events[|events| - 1];
      if e.Accepted? then AcceptedIn(events[..|events| - 1]) + [e.update] else AcceptedIn(events[..|events| - 1])
  }

  function DeliveredIn(events: seq<Event>): seq<MarketUpdate> {
    if events == [] then []
    else
      var e := events[|events| - 1];
      if e.Delivered? then DeliveredIn(events[..|events| - 1]) + [e.update] else DeliveredIn(events[..|events| - 1])
  }

  lemma HistoryStep(events: seq<Event>, e: Event)
    ensures AcceptedIn(events + [e]) == if e.Accepted? then AcceptedIn(events) + [e.update] else AcceptedIn(events)
    ensures DeliveredIn(events + [e]) == if e.Delivered? then DeliveredIn(events) + [e.update] else DeliveredIn(events)
  {
    assert (events + [e])[..|events|] == events;
  }

  /** What an event says about the guarded fields before and after its critical section. */
  ghost predicate Follows(g: Guarded, e: Event, h: Guarded) {
    match e
    case Accepted(_, u) => !g.shutdown && h == g.(queue := g.queue + [u])
    case Rejected(_, _) => g.shutdown && h == g
    case Delivered(_, u) => g.queue != [] && u == g.queue[0] && h == g.(queue := g.queue[1..])
    case FoundDrained(_) => g.shutdown && g.queue == [] && h == g
    case Closed(_) => h == g.(shutdown := true)
  }

  /** A step either leaves the guarded fields and the history alone or is one event on both. */
  lemma StepIsEvent(s: State, a: Action)
    requires Enabled(s, a)
    ensures var after := Do(s, a);
            || (after.guarded == s.guarded && after.events == s.events)
            || (|after.events| == |s.events| + 1
                && after.events == s.events + [after.events[|s.events|]]
                && Follows(s.guarded, after.events[|s.events|], after.guarded)
                && after.events[|s.events|].thread == a.t)
  {
  }

  /** The section of a push: one event, and on an open queue the update at its end. */
  lemma PushStep(s: State, t: nat)
    requires Enabled(s, RunPush(t))
    ensures var g, after, u := s.guarded, Do(s, RunPush(t)), s.threads[t].update;
            && after.events == s.events + [if g.shutdown then Rejected(t, u) else Accepted(t, u)]
            && after.guarded == Guarded(if g.shutdown then g.queue else g.queue + [u], g.shutdown)
            && after.guarded == Pushed(g, u)
  {
  }

  /** The section of a pop: it takes the front when there is one, and otherwise changes neither field. */
  lemma PopStep(s: State, t: nat)
    requires Enabled(s, RunPop(t))
    ensures var g, after := s.guarded, Do(s, RunPop(t));
            && after.guarded == Popped(g)
            && (if g.queue != [] then
                  && after.events == s.events + [Delivered(t, g.queue[0])]
                  && after.guarded == Guarded(g.queue[1..], g.shutdown)
                else
                  && after.events == s.events + (if g.shutdown then [FoundDrained(t)] else [])
                  && after.guarded == g)
            && (after.threads[t].Asleep? <==> g == Guarded([], false))
  {
  }

  /** Every other step: only the section of a shutdown is an event, and it only sets the flag. */
  lemma OtherStep(s: State, a: Action)
    requires Enabled(s, a) && !a.RunPush? && !a.RunPop?
    ensures var after := Do(s, a);
            if a.RunShutdown? then
              after.events == s.events + [Closed(a.t)] && after.guarded == Guarded(s.guarded.queue, true)
            else after.events == s.events && after.guarded == s.guarded
  {
  }

  /** First in, first out: what was accepted is what was delivered followed by what is queued. */
  ghost predicate Fifo(g: Guarded, events: seq<Event>) {
    AcceptedIn(events) == DeliveredIn(events) + g.queue
  }

  /** Nothing is accepted after a shutdown, a refusal or a drained pop; the last means that all was delivered. */
  ghost predicate ClosedFor(g: Guarded, events: seq<Event>, k: nat)
    requires k < |events|
  {
    var e := events[k];
    && (e.Closed? || e.Rejected? || e.FoundDrained? ==>
          g.shutdown && AcceptedIn(events) == AcceptedIn(events[..k]))
    && (e.FoundDrained? ==> AcceptedIn(events) == DeliveredIn(events[..k]) && g.queue == [])
  }

  ghost predicate ClosedForGood(g: Guarded, events: seq<Event>) {
    forall k :: 0 <= k < |events| ==> ClosedFor(g, events, k)
  }

  lemma EventKeepsHistory(g: Guarded, events: seq<Event>, e: Event, h: Guarded)
    requires Follows(g, e, h)
    requires Fifo(g, events) && ClosedForGood(g, events)
    ensures Fifo(h, events + [e]) && ClosedForGood(h, events + [e])
  {
    HistoryStep(events, e);
    forall k | 0 <= k < |events + [e]| ensures ClosedFor(h, events + [e], k) {
      if k < |events| {
        assert ClosedFor(g, events, k);
        assert (events + [e])[..k] == events[..k];
      } else {
        assert (events + [e])[..k] == events;
      }
    }
  }

  // ---------------------------------------------------------------- wake-ups

  /** The sum of a weight over all threads. */
  function Weigh(threads: seq<Pc>, weight: Pc -> nat): nat {
    if threads == [] then 0 else weight(threads[0]) + Weigh(threads[1..], weight)
  }

  lemma {:induction false} WeighUpdate(threads: seq<Pc>, t: nat, pc: Pc, weight: Pc -> nat)
    requires t < |threads|
    ensures Weigh(threads[t := pc], weight) == Weigh(threads, weight) - weight(threads[t]) + weight(pc)
    ensures Weigh(threads, weight) >= weight(threads[t])
  {
    if t == 0 {
      assert threads[0 := pc][1..] == threads[1..];
    } else {
      assert threads[t := pc][1..] == threads[1..][t - 1 := pc];
      WeighUpdate(threads[1..], t - 1, pc, weight);
    }
  }

  /** A thread that will look at the queue, or will wake one that does. */
  function Credit(pc: Pc): nat {
    if pc.PopHeld? || pc.Woken? || pc.PushedHeld? || pc.NotifyOne? then 1 else 0
  }

  ghost predicate SomePending(threads: seq<Pc>) {
    exists i :: 0 <= i < |threads| && (threads[i].ShutSetHeld? || threads[i].NotifyAll?)
  }

  /** No lost wake-up: beside a sleeper, every queued update has a thread that will see to it. */
  ghost predicate NoLostWakeUp(s: State) {
    SomeAsleep(s.threads) ==>
      && |s.guarded.queue| <= Weigh(s.threads, Credit)
      && (s.guarded.shutdown ==> SomePending(s.threads))
  }

  ghost predicate MutualExclusion(s: State) {
    forall t :: 0 <= t < |s.threads| ==> (IsHeld(s.threads[t]) <==> s.lock == Some(t))
  }

  ghost predicate Inv(s: State) {
    && MutualExclusion(s)
    && Fifo(s.guarded, s.events)
    && ClosedForGood(s.guarded, s.events)
    && NoLostWakeUp(s)
  }

  lemma MutualExclusionKept(s: State, a: Action)
    requires Enabled(s, a) && MutualExclusion(s)
    ensures MutualExclusion(Do(s, a))
  {
  }

  lemma PendingKept(s: State, a: Action)
    requires Enabled(s, a) && !a.WakeAll?
    requires s.guarded.shutdown ==> SomePending(s.threads)
    ensures var after := Do(s, a); after.guarded.shutdown ==> SomePending(after.threads)
  {
    var after := Do(s, a);
    if after.guarded.shutdown {
      var i: nat := a.t;
      if s.guarded.shutdown {
        i :| 0 <= i < |s.threads| && (s.threads[i].ShutSetHeld? || s.threads[i].NotifyAll?);
      }
      assert after.threads[i].ShutSetHeld? || after.threads[i].NotifyAll?;
    }
  }

  /** Only a consumer that finds nothing goes to sleep, and `WakeAll` leaves nobody asleep. */
  lemma SleptBefore(s: State, a: Action)
    requires Enabled(s, a) && !(a.RunPop? && Found(s.guarded).MustWait?)
    requires SomeAsleep(Do(s, a).threads)
    ensures SomeAsleep(s.threads) && !a.WakeAll?
  {
    var after := Do(s, a);
    var i :| 0 <= i < |after.threads| && after.threads[i].Asleep?;
    assert s.threads[i].Asleep?;
  }

  lemma CreditKept(s: State, a: Action)
    requires Enabled(s, a) && !a.WakeAll?
    requires |s.guarded.queue| <= Weigh(s.threads, Credit)
    ensures |Do(s, a).guarded.queue| <= Weigh(Do(s, a).threads, Credit) || (a.WakeOne? && !SomeAsleep(s.threads))
  {
    var after := Do(s, a);
    if a.WakeOne? {
      WeighUpdate(s.threads, a.t, Idle, Credit);
      if SomeAsleep(s.threads) {
        WeighUpdate(s.threads[a.t := Idle], a.sleeper, Woken, Credit);
      }
    } else {
      assert after.threads == s.threads[a.t := after.threads[a.t]];
      WeighUpdate(s.threads, a.t, after.threads[a.t], Credit);
    }
  }

  lemma NoLostWakeUpKept(s: State, a: Action)
    requires Enabled(s, a) && NoLostWakeUp(s)
    ensures NoLostWakeUp(Do(s, a))
  {
    hide Weigh, Credit, SomePending;
    var after := Do(s, a);
    if SomeAsleep(after.threads) {
      if a.RunPop? && Found(s.guarded).MustWait? {
        assert after.guarded.queue == [] && !after.guarded.shutdown;
      } else {
        assert SomeAsleep(s.threads) by { SleptBefore(s, a); }
        CreditKept(s, a);
        PendingKept(s, a);
      }
    }
  }

  lemma InvKept(s: State, a: Action)
    requires Enabled(s, a) && Inv(s)
    ensures Inv(Do(s, a))
  {
    hide Do, Enabled, MutualExclusion, Fifo, ClosedForGood, NoLostWakeUp;
    MutualExclusionKept(s, a);
    StepIsEvent(s, a);
    var after := Do(s, a);
    if after.events != s.events {
      EventKeepsHistory(s.guarded, s.events, after.events[|s.events|], after.guarded);
    }
    NoLostWakeUpKept(s, a);
  }

  /** The invariant holds in every reachable state. */
  lemma {:induction false} ReachableInv(n: nat, schedule: seq<Action>)
    ensures Inv(After(n, schedule))
  {
    if schedule != [] {
      var front, a := schedule[..|schedule| - 1], schedule[|schedule| - 1];
      ReachableInv(n, front);
      if Enabled(After(n, front), a) {
        InvKept(After(n, front), a);
      }
    }
  }
}
