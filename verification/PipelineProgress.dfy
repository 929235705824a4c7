/**
 The whole system moves on by itself: without new pushes, shutdowns, spurious wake-ups, ticks of the
 clock and reads, its remaining work is bounded, and when no step is left every accepted update has
 been applied.
 */
module PipelineProgress {
  import opened Market
  import opened Consolidation
  import opened QueueProgress
  import opened Pipeline

  /** The system's own steps: calls in progress, the loop's next pop, and the turn of the loop. */
  predicate Work(a: Action) {
    match a
    case Queue(action) => action.StartPop? || Internal(action)
    case Apply => true
    case Decide => true
    case Overwrite => true
    case _ => false
  }

  // ---------------------------------------------------------------- a bound on the work

  /** The steps that one queued update may still cost: the turn it starts and the pop after it. */
  const PER_UPDATE: nat := 6

  /** A push that has not reached the queue yet. */
  function Pushing(pc: Q.Pc): nat {
    if pc.PushLock? || pc.PushHeld? then 1 else 0
  }

  /** The updates that are queued or on their way into the queue. */
  function Incoming(s: Q.State): nat {
    Q.Weigh(s.threads, Pushing) + |s.guarded.queue|
  }

  /** What is left of the loop's turn, its next pop included. */
  function Turn(s: State): nat {
    match s.loop
    case Popping => if AGGREGATOR < |s.queue.threads| && s.queue.threads[AGGREGATOR].Idle? then 3 else 0
    case Received(_) => 6
    case Applied(_) => 5
    case Publishing(_, _, _) => 4
    case Stopped => 0
  }

  /** The distance of the threads, a constant for every incoming update, and the rest of the turn. */
  function Effort(s: State): nat {
    Remaining(|s.queue.threads|, s.queue.threads) + PER_UPDATE * Incoming(s.queue) + Turn(s)
  }

  /** No internal step adds an update, and a delivery takes one away. */
  lemma IncomingStep(s: Q.State, a: Q.Action)
    requires Q.Enabled(s, a) && Internal(a)
    ensures Incoming(Q.Do(s, a)) <= Incoming(s)
    ensures a.RunPop? && Q.Found(s.guarded).Got? ==> Incoming(Q.Do(s, a)) + 1 == Incoming(s)
  {
    var after := Q.Do(s, a);
    if a.WakeAll? {
      Q.WeighUpdate(s.threads, a.t, Q.Idle, Pushing);
      WeighAwake(s.threads[a.t := Q.Idle], Pushing, 0);
    } else if a.WakeOne? {
      Q.WeighUpdate(s.threads, a.t, Q.Idle, Pushing);
      if Q.SomeAsleep(s.threads) {
        Q.WeighUpdate(s.threads[a.t := Q.Idle], a.sleeper, Q.Woken, Pushing);
      }
    } else {
      OneThreadMoves(s, a, 0);
      Q.WeighUpdate(s.threads, a.t, after.threads[a.t], Pushing);
    }
  }

  /** A queue step adds to the loop's turn only by a delivery. */
  lemma TurnStep(s: State, action: Q.Action)
    requires Enabled(s, Queue(action)) && Internal(action) && Roles(s)
    ensures var after := Do(s, Queue(action));
            Turn(after) <= Turn(s) + if action.RunPop? && Q.Found(s.queue.guarded).Got? then PER_UPDATE else 0
  {
    QueueStep(s, action);
  }

  lemma StartPopStep(s: State, action: Q.Action)
    requires Enabled(s, Queue(action)) && action.StartPop?
    ensures Effort(Do(s, Queue(action))) < Effort(s)
  {
    var n := |s.queue.threads|;
    Q.WeighUpdate(s.queue.threads, AGGREGATOR, Q.PopLock, DistanceIn(n));
    Q.WeighUpdate(s.queue.threads, AGGREGATOR, Q.PopLock, Pushing);
  }

  lemma QueueWorkDecreases(s: State, action: Q.Action)
    requires Enabled(s, Queue(action)) && Internal(action) && Roles(s)
    ensures Effort(Do(s, Queue(action))) < Effort(s)
  {
    hide Turn, Incoming, Remaining, Roles, Internal;
    InternalStepDecreases(s.queue, action);
    IncomingStep(s.queue, action);
    TurnStep(s, action);
    StepKeepsLockOwned(s.queue, action);
  }

  /** Every step of the system's own reduces the effort that is left. */
  lemma WorkDecreases(s: State, a: Action)
    requires Enabled(s, a) && Work(a) && Roles(s)
    ensures Effort(Do(s, a)) < Effort(s)
  {
    if a.Queue? {
      if a.action.StartPop? {
        StartPopStep(s, a.action);
      } else {
        QueueWorkDecreases(s, a.action);
      }
    }
  }

  /** A continuation on which every step is the system's own and possible at its turn. */
  ghost predicate Works(n: nat, start: int, schedule: seq<Action>, more: seq<Action>) {
    forall k :: 0 <= k < |more| ==> Work(more[k]) && Enabled(After(n, start, schedule + more[..k]), more[k])
  }

  lemma WorksPrefix(n: nat, start: int, schedule: seq<Action>, more: seq<Action>, k: nat)
    requires Works(n, start, schedule, more) && k <= |more|
    ensures Works(n, start, schedule, more[..k])
  {
    forall j | 0 <= j < k
      ensures Work(more[..k][j]) && Enabled(After(n, start, schedule + more[..k][..j]), more[..k][j])
    {
      assert more[..k][..j] == more[..j] && more[..k][j] == more[j];
    }
  }

  lemma AfterWork(n: nat, start: int, schedule: seq<Action>, a: Action)
    requires Enabled(After(n, start, schedule), a)
    ensures After(n, start, schedule + [a]) == Do(After(n, start, schedule), a)
  {
    assert (schedule + [a])[..|schedule|] == schedule;
  }

  /** Left to itself, the system takes no more steps than the effort that is left. */
  lemma {:induction false} WorkIsBounded(n: nat, start: int, schedule: seq<Action>, more: seq<Action>)
    requires Works(n, start, schedule, more)
    ensures |more| + Effort(After(n, start, schedule + more)) <= Effort(After(n, start, schedule))
  {
    hide Do, Enabled, After, Effort, Work;
    if more == [] {
      assert schedule + more == schedule;
    } else {
      var k := |more| - 1;
      WorksPrefix(n, start, schedule, more, k);
      WorkIsBounded(n, start, schedule, more[..k]);
      ReachableInv(n, start, schedule + more[..k]);
      AfterWork(n, start, schedule + more[..k], more[k]);
      assert schedule + more[..k] + [more[k]] == schedule + more;
      WorkDecreases(After(n, start, schedule + more[..k]), more[k]);
    }
  }

  // ---------------------------------------------------------------- the end of the work

  lemma {:induction false} ThreadsStay(n: nat, start: int, schedule: seq<Action>)
    ensures var queue := After(n, start, schedule).queue;
            |queue.threads| == n && (queue.lock.Some? ==> queue.lock.value < n)
  {
    hide Q.Do, Q.Enabled;
    if schedule != [] {
      var front, a := schedule[..|schedule| - 1], schedule[|schedule| - 1];
      ThreadsStay(n, start, front);
      var before := After(n, start, front);
      if Enabled(before, a) && a.Queue? {
        StepKeepsLockOwned(before.queue, a.action);
      }
    }
  }

  /** No step of the system's own is possible. */
  ghost predicate Finished(s: State) {
    forall a :: Work(a) ==> !Enabled(s, a)
  }

  lemma FinishedIsResting(s: State)
    requires Finished(s) && Q.MutualExclusion(s.queue) && Roles(s)
    requires AGGREGATOR < |s.queue.threads| && (s.queue.lock.Some? ==> s.queue.lock.value < |s.queue.threads|)
    ensures s.loop.Stopped? || SleepsAlone(s)
  {
    if !AtRest(s.queue) {
      var a := SomeStepIsPossible(s.queue);
      assert Work(Queue(a)) && Enabled(s, Queue(a));
    }
    assert !Enabled(s, Apply) && !Enabled(s, Decide) && !Enabled(s, Overwrite);
    assert !Enabled(s, Queue(Q.StartPop(AGGREGATOR)));
  }

  /** From every reachable state the system, left to itself, can finish. */
  lemma {:induction false} CanFinish(n: nat, start: int, schedule: seq<Action>) returns (more: seq<Action>)
    ensures Works(n, start, schedule, more)
    ensures Finished(After(n, start, schedule + more))
    decreases Effort(After(n, start, schedule))
  {
    hide Do, Enabled, After, Effort, Work;
    var s := After(n, start, schedule);
    if Finished(s) {
      more := [];
      assert schedule + [] == schedule;
    } else {
      var a :| Work(a) && Enabled(s, a);
      ReachableInv(n, start, schedule);
      AfterWork(n, start, schedule, a);
      WorkDecreases(s, a);
      var rest := CanFinish(n, start, schedule + [a]);
      more := [a] + rest;
      WorksOn(n, start, schedule, a, rest);
      assert schedule + more == schedule + [a] + rest;
    }
  }

  lemma WorksOn(n: nat, start: int, schedule: seq<Action>, a: Action, rest: seq<Action>)
    requires Work(a) && Enabled(After(n, start, schedule), a)
    requires Works(n, start, schedule + [a], rest)
    ensures Works(n, start, schedule, [a] + rest)
  {
    hide Do, Enabled, After, Work;
    var more := [a] + rest;
    forall k | 0 <= k < |more|
      ensures Work(more[k]) && Enabled(After(n, start, schedule + more[..k]), more[k])
    {
      if k == 0 {
        assert schedule + more[..0] == schedule;
      } else {
        assert schedule + more[..k] == schedule + [a] + rest[..k - 1];
      }
    }
  }

  /**
   From every reachable state the system's own steps are bounded by the effort that is left, and
   however they are taken, once none is possible the loop has stopped or sleeps, and the aggregator's
   state is that of all the updates ever accepted. `n` counts the aggregator's thread.
   */
  lemma EveryUpdateIsApplied(n: nat, start: int, schedule: seq<Action>, more: seq<Action>)
    requires n > 0 && Works(n, start, schedule, more)
    ensures |more| <= Effort(After(n, start, schedule))
    ensures var s := After(n, start, schedule + more);
            Finished(s) ==>
              && (s.loop.Stopped? || SleepsAlone(s))
              && s.ask == LevelsAfter(Accepted(s), ASK) && s.bid == LevelsAfter(Accepted(s), BID)
  {
    hide After, Do, Enabled, Effort, Work, Works, LevelsAfter, SleepsAlone, Finished;
    hide LoopIsFaithful, SharedIsPrefix, ServedInOrder, Throttled, StopsDrained, Roles;
    WorkIsBounded(n, start, schedule, more);
    var s := After(n, start, schedule + more);
    if Finished(s) {
      ReachableInv(n, start, schedule + more);
      ThreadsStay(n, start, schedule + more);
      FinishedIsResting(s);
      EndsDrained(n, start, schedule + more);
      AggregatorCatchesUp(n, start, schedule + more);
    }
  }
}
