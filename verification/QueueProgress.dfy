/**
 No consumer is stranded beside available work: once nobody makes a new call, the threads of the
 monitor come to rest after a bounded number of steps, and at rest a sleeper means an empty, open queue.
 */
module QueueProgress {
  import opened Market
  import opened BlockingQueue

  /** A step of a call in progress; new calls and spurious wake-ups come from outside. */
  predicate Internal(a: Action) {
    !a.StartPush? && !a.StartPop? && !a.StartShutdown? && !a.Spurious?
  }

  /** Every thread is outside the queue or asleep in it. */
  ghost predicate AtRest(s: State) {
    forall t :: 0 <= t < |s.threads| ==> s.threads[t].Idle? || s.threads[t].Asleep?
  }

  // ---------------------------------------------------------------- at rest

  lemma {:induction false} WeighBound(threads: seq<Pc>, weight: Pc -> nat, other: Pc -> nat)
    requires forall t :: 0 <= t < |threads| ==> weight(threads[t]) <= other(threads[t])
    ensures Weigh(threads, weight) <= Weigh(threads, other)
  {
    if threads != [] {
      WeighBound(threads[1..], weight, other);
    }
  }

  function NoWeight(pc: Pc): nat {
    0
  }

  lemma {:induction false} NoWeightIsZero(threads: seq<Pc>)
    ensures Weigh(threads, NoWeight) == 0
  {
    if threads != [] {
      NoWeightIsZero(threads[1..]);
    }
  }

  /** A thread on its way back from sleep, or about to wake one. */
  function Waker(pc: Pc): nat {
    if pc.Woken? || pc.NotifyOne? then 1 else 0
  }

  /**
   No lost wake-up: in every reachable state with a sleeping consumer and a free lock, the queued
   updates are at most the woken consumers and the pushers about to notify; and after a shutdown a
   sleeper means a pending notify_all.
   */
  lemma SleepersAreCovered(n: nat, schedule: seq<Action>)
    ensures var s := After(n, schedule);
            SomeAsleep(s.threads) ==>
              && (s.lock == None ==> |s.guarded.queue| <= Weigh(s.threads, Waker))
              && (s.guarded.shutdown ==> SomePending(s.threads))
  {
    var s := After(n, schedule);
    ReachableInv(n, schedule);
    if s.lock == None {
      assert forall t :: 0 <= t < |s.threads| ==> !IsHeld(s.threads[t]);
      WeighBound(s.threads, Credit, Waker);
    }
  }

  lemma RestIsDry(s: State)
    requires NoLostWakeUp(s) && AtRest(s) && SomeAsleep(s.threads)
    ensures s.guarded == Guarded([], false)
  {
    WeighBound(s.threads, Credit, NoWeight);
    NoWeightIsZero(s.threads);
  }

  // ---------------------------------------------------------------- reaching rest

  /** Unless all threads are at rest, some call in progress can take a step. */
  lemma SomeStepIsPossible(s: State) returns (a: Action)
    requires MutualExclusion(s) && !AtRest(s)
    requires s.lock.Some? ==> s.lock.value < |s.threads|
    ensures Internal(a) && Enabled(s, a)
  {
    var t: nat :| t < |s.threads| && !s.threads[t].Idle? && !s.threads[t].Asleep?;
    if s.lock.Some? {
      var holder := s.lock.value;
      assert IsHeld(s.threads[holder]);
      a := match s.threads[holder]
           case PushHeld(_) => RunPush(holder)
           case PopHeld => RunPop(holder)
           case ShutHeld => RunShutdown(holder)
           case _ => Unlock(holder);
    } else if s.threads[t].NotifyOne? {
      var sleeper: nat := 0;
      if SomeAsleep(s.threads) {
        sleeper :| sleeper < |s.threads| && s.threads[sleeper].Asleep?;
      }
      a := WakeOne(t, sleeper);
    } else if s.threads[t].NotifyAll? {
      a := WakeAll(t);
    } else {
      assert !IsHeld(s.threads[t]);
      a := Acquire(t);
    }
  }

  /** The lock is free or held by one of the threads. */
  lemma {:induction false} LockIsOwned(n: nat, schedule: seq<Action>)
    ensures var s := After(n, schedule); |s.threads| == n && (s.lock.Some? ==> s.lock.value < n)
  {
    if schedule != [] {
      var before, a := After(n, schedule[..|schedule| - 1]), schedule[|schedule| - 1];
      LockIsOwned(n, schedule[..|schedule| - 1]);
      if Enabled(before, a) {
        StepKeepsLockOwned(before, a);
      }
    }
  }

  lemma StepKeepsLockOwned(s: State, a: Action)
    requires Enabled(s, a)
    ensures var after := Do(s, a);
            && a.t < |s.threads| == |after.threads|
            && (after.lock == s.lock || after.lock == None || after.lock == Some(a.t))
  {
  }

  /** How far a thread is from rest; waking everybody has to outweigh all the threads woken. */
  function Distance(n: nat, pc: Pc): nat {
    match pc
    case Idle => 0
    case Asleep => 0
    case PopHeld => 1
    case Woken => 2
    case PopLock => 2
    case NotifyOne => 3
    case PushedHeld => 4
    case PushHeld(_) => 5
    case PushLock(_) => 6
    case NotifyAll => 2 * n + 1
    case ShutSetHeld => 2 * n + 2
    case ShutHeld => 2 * n + 3
    case ShutLock => 2 * n + 4
  }

  function DistanceIn(n: nat): Pc -> nat {
    (pc: Pc) => Distance(n, pc)
  }

  /** The distance of all the threads together. */
  function Remaining(n: nat, threads: seq<Pc>): nat {
    Weigh(threads, DistanceIn(n))
  }

  /** Waking everybody adds at most `c` for each thread, if waking one does. */
  lemma {:induction false} WeighAwake(threads: seq<Pc>, weight: Pc -> nat, c: nat)
    requires weight(Woken) <= weight(Asleep) + c
    ensures Weigh(AwakeAll(threads), weight) <= Weigh(threads, weight) + c * |threads|
  {
    if threads != [] {
      assert AwakeAll(threads)[1..] == AwakeAll(threads[1..]);
      WeighAwake(threads[1..], weight, c);
      assert c * |threads| == c + c * |threads[1..]|;
    }
  }

  lemma OneThreadMoves(s: State, a: Action, n: nat)
    requires Enabled(s, a) && Internal(a) && !a.WakeAll? && !a.WakeOne?
    ensures var after := Do(s, a).threads;
            && |after| == |s.threads|
            && after == s.threads[a.t := after[a.t]]
            && Distance(n, after[a.t]) < Distance(n, s.threads[a.t])
  {
  }

  /** Every internal step brings the threads nearer to rest. */
  lemma InternalStepDecreases(s: State, a: Action)
    requires Enabled(s, a) && Internal(a)
    ensures Remaining(|s.threads|, Do(s, a).threads) < Remaining(|s.threads|, s.threads)
  {
    var n, after := |s.threads|, Do(s, a);
    if a.WakeAll? {
      WeighUpdate(s.threads, a.t, Idle, DistanceIn(n));
      WeighAwake(s.threads[a.t := Idle], DistanceIn(n), 2);
    } else if a.WakeOne? {
      WeighUpdate(s.threads, a.t, Idle, DistanceIn(n));
      if SomeAsleep(s.threads) {
        WeighUpdate(s.threads[a.t := Idle], a.sleeper, Woken, DistanceIn(n));
      }
    } else {
      OneThreadMoves(s, a, n);
      WeighUpdate(s.threads, a.t, after.threads[a.t], DistanceIn(n));
    }
  }

  lemma AfterStep(n: nat, schedule: seq<Action>, a: Action)
    requires Enabled(After(n, schedule), a)
    ensures After(n, schedule + [a]) == Do(After(n, schedule), a)
  {
    assert (schedule + [a])[..|schedule|] == schedule;
  }

  /** A schedule on which every step is internal and possible at its turn. */
  ghost predicate Continues(n: nat, schedule: seq<Action>, more: seq<Action>) {
    forall k :: 0 <= k < |more| ==> Internal(more[k]) && Enabled(After(n, schedule + more[..k]), more[k])
  }

  lemma ContinuesPrefix(n: nat, schedule: seq<Action>, more: seq<Action>, k: nat)
    requires Continues(n, schedule, more) && k <= |more|
    ensures Continues(n, schedule, more[..k])
  {
    forall j | 0 <= j < k
      ensures Internal(more[..k][j]) && Enabled(After(n, schedule + more[..k][..j]), more[..k][j])
    {
      assert more[..k][..j] == more[..j] && more[..k][j] == more[j];
    }
  }

  /** Calls in progress cannot go on for ever: the distance to rest bounds their steps. */
  lemma {:induction false} InternalStepsAreBounded(n: nat, schedule: seq<Action>, more: seq<Action>)
    requires Continues(n, schedule, more)
    ensures |more| + Remaining(n, After(n, schedule + more).threads) <= Remaining(n, After(n, schedule).threads)
  {
    hide Do, Enabled, After, Remaining;
    if more == [] {
      assert schedule + more == schedule;
    } else {
      var k := |more| - 1;
      ContinuesPrefix(n, schedule, more, k);
      InternalStepsAreBounded(n, schedule, more[..k]);
      LockIsOwned(n, schedule + more[..k]);
      AfterStep(n, schedule + more[..k], more[k]);
      assert schedule + more[..k] + [more[k]] == schedule + more;
      InternalStepDecreases(After(n, schedule + more[..k]), more[k]);
    }
  }

  /** From every reachable state the calls in progress can come to rest. */
  lemma {:induction false} CallsCanRest(n: nat, schedule: seq<Action>) returns (more: seq<Action>)
    ensures Continues(n, schedule, more)
    ensures AtRest(After(n, schedule + more))
    decreases Remaining(n, After(n, schedule).threads)
  {
    hide Do, Enabled, After, Remaining, Internal;
    var s := After(n, schedule);
    if AtRest(s) {
      more := [];
      assert schedule + [] == schedule;
    } else {
      ReachableInv(n, schedule);
      LockIsOwned(n, schedule);
      var a := SomeStepIsPossible(s);
      AfterStep(n, schedule, a);
      InternalStepDecreases(s, a);
      var rest := CallsCanRest(n, schedule + [a]);
      more := [a] + rest;
      ContinuesOn(n, schedule, a, rest);
      assert schedule + more == schedule + [a] + rest;
    }
  }

  lemma ContinuesOn(n: nat, schedule: seq<Action>, a: Action, rest: seq<Action>)
    requires Internal(a) && Enabled(After(n, schedule), a)
    requires Continues(n, schedule + [a], rest)
    ensures Continues(n, schedule, [a] + rest)
  {
    hide Do, Enabled, After, Internal;
    var more := [a] + rest;
    forall k | 0 <= k < |more|
      ensures Internal(more[k]) && Enabled(After(n, schedule + more[..k]), more[k])
    {
      if k == 0 {
        assert schedule + more[..0] == schedule;
      } else {
        assert schedule + more[..k] == schedule + [a] + rest[..k - 1];
      }
    }
  }

  /**
   In every reachable state, either some call in progress can take a step, or all threads are at rest
   and a consumer sleeps only because the queue is empty and open. By `InternalStepsAreBounded` the
   steps of the calls in progress run out, so nobody is left sleeping beside available work.
   */
  lemma NoConsumerIsStranded(n: nat, schedule: seq<Action>)
    ensures var s := After(n, schedule);
            if AtRest(s) then SomeAsleep(s.threads) ==> s.guarded == Guarded([], false)
            else exists a :: Internal(a) && Enabled(s, a)
  {
    var s := After(n, schedule);
    ReachableInv(n, schedule);
    LockIsOwned(n, schedule);
    if !AtRest(s) {
      var a := SomeStepIsPossible(s);
    } else if SomeAsleep(s.threads) {
      RestIsDry(s);
    }
  }

  /**
   The history of the queue in every reachable state: first in, first out; nothing is accepted after
   a shutdown or after any refusal; and a pop that reports the end has everything delivered before it.
   */
  lemma QueueHistory(n: nat, schedule: seq<Action>)
    ensures var s := After(n, schedule);
            && AcceptedIn(s.events) == DeliveredIn(s.events) + s.guarded.queue
            && forall k :: 0 <= k < |s.events| ==>
                 && (s.events[k].Closed? || s.events[k].Rejected? ==> AcceptedIn(s.events) == AcceptedIn(s.events[..k]))
                 && (s.events[k].FoundDrained? ==> DeliveredIn(s.events[..k]) == AcceptedIn(s.events))
  {
    var s := After(n, schedule);
    ReachableInv(n, schedule);
    forall k | 0 <= k < |s.events|
      ensures s.events[k].Closed? || s.events[k].Rejected? ==> AcceptedIn(s.events) == AcceptedIn(s.events[..k])
      ensures s.events[k].FoundDrained? ==> DeliveredIn(s.events[..k]) == AcceptedIn(s.events)
    {
      assert ClosedFor(s.guarded, s.events, k);
    }
  }
}
