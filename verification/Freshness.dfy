/**
 When the shared book is the latest one. Publication happens only in the turn of an update, so what
 decides is whether a second had passed when the last delivered update had its turn.
 */
module Freshness {
  import opened Market
  import opened Slots
  import opened Levels
  import opened Independence
  import opened Consolidation
  import opened Pipeline

  /** The shared snapshot has everything that was delivered. */
  ghost predicate Fresh(s: State) {
    s.prefix == |Delivered(s)|
  }

  /** The turn that is about to be decided publishes. */
  predicate Due(s: State) {
    s.clock - s.lastSnapshotTime >= SECOND
  }

  /** While an update is in the loop's hand, the shared snapshot does not have it. */
  ghost predicate Behind(s: State) {
    s.loop.Received? || s.loop.Applied? ==> s.prefix < |Delivered(s)|
  }

  lemma BehindKept(s: State, a: Action)
    requires Enabled(s, a) && Inv(s) && Behind(s)
    ensures Behind(Do(s, a))
  {
    hide Upsert, Quotes, Roles, LevelsAfter, BookAfter;
    if a.Queue? {
      QueueStep(s, a.action);
    }
  }

  lemma {:induction false} ReachableBehind(n: nat, start: int, schedule: seq<Action>)
    ensures Behind(After(n, start, schedule))
  {
    hide Do, Enabled, Behind, Inv;
    if schedule == [] {
      NothingInHand(n, start);
    } else {
      var front, a := schedule[..|schedule| - 1], schedule[|schedule| - 1];
      ReachableBehind(n, start, front);
      ReachableInv(n, start, front);
      if Enabled(After(n, start, front), a) {
        BehindKept(After(n, start, front), a);
      }
    }
  }

  lemma NothingInHand(n: nat, start: int)
    ensures Behind(Initial(n, start))
  {
  }

  /** How things stand after the decision, as long as nothing more is delivered. */
  ghost predicate Decided(s: State, due: bool) {
    if due then s.loop.Publishing? || ((s.loop.Popping? || s.loop.Stopped?) && Fresh(s))
    else (s.loop.Popping? || s.loop.Stopped?) && s.prefix < |Delivered(s)|
  }

  lemma DecidedKept(s: State, a: Action, due: bool)
    requires Enabled(s, a) && Roles(s) && Decided(s, due)
    ensures Delivered(Do(s, a)) == Delivered(s) ==> Decided(Do(s, a), due)
  {
    hide Upsert, Quotes, Roles;
    if a.Queue? {
      QueueStep(s, a.action);
    }
  }

  lemma {:induction false} StaysDecided(n: nat, start: int, schedule: seq<Action>, more: seq<Action>, due: bool)
    requires Decided(After(n, start, schedule), due)
    ensures Delivered(After(n, start, schedule)) <= Delivered(After(n, start, schedule + more))
    ensures Delivered(After(n, start, schedule + more)) == Delivered(After(n, start, schedule))
            ==> Decided(After(n, start, schedule + more), due)
  {
    hide Do, Enabled, Decided, Inv, Delivered;
    if more == [] {
      assert schedule + more == schedule;
    } else {
      var front, a := more[..|more| - 1], more[|more| - 1];
      var before := After(n, start, schedule + front);
      StaysDecided(n, start, schedule, front, due);
      assert (schedule + more)[..|schedule + more| - 1] == schedule + front;
      if Enabled(before, a) {
        StepKeepsDecided(n, start, schedule + front, a, due);
        var d0, d1 := Delivered(After(n, start, schedule)), Delivered(before);
        var d2 := Delivered(Do(before, a));
        assert d0 <= d1 <= d2;
        assert d2 == d0 ==> d1 == d0;
      }
    }
  }

  lemma StepKeepsDecided(n: nat, start: int, schedule: seq<Action>, a: Action, due: bool)
    requires Enabled(After(n, start, schedule), a)
    ensures var s := After(n, start, schedule);
            && Delivered(s) <= Delivered(Do(s, a))
            && (Decided(s, due) && Delivered(Do(s, a)) == Delivered(s) ==> Decided(Do(s, a), due))
  {
    hide Do, Enabled, Decided, Delivered, After;
    var s := After(n, start, schedule);
    ReachableInv(n, start, schedule);
    DeliveredGrows(s, a);
    if Decided(s, due) {
      DecidedKept(s, a, due);
    }
  }

  lemma DecideDecides(n: nat, start: int, schedule: seq<Action>)
    requires After(n, start, schedule).loop.Applied?
    ensures var s, after := After(n, start, schedule), After(n, start, schedule + [Decide]);
            Delivered(after) == Delivered(s) && Decided(after, Due(s))
  {
    hide After;
    ReachableBehind(n, start, schedule);
    AfterOne(n, start, schedule, Decide);
  }

  lemma AfterOne(n: nat, start: int, schedule: seq<Action>, a: Action)
    requires Enabled(After(n, start, schedule), a)
    ensures After(n, start, schedule + [a]) == Do(After(n, start, schedule), a)
  {
    assert (schedule + [a])[..|schedule|] == schedule;
  }

  /**
   Exactly when the shared book ends up current. Take any run up to the moment where an update has been
   applied, its decision, and any continuation in which nothing more is delivered: once the loop is
   back at its pop, or has stopped, the shared book has every delivered update if and only if a second
   had passed at that decision. No later step, however long one waits, changes the outcome.
   */
  lemma FreshnessIsExact(n: nat, start: int, schedule: seq<Action>, more: seq<Action>)
    requires After(n, start, schedule).loop.Applied?
    requires Delivered(After(n, start, schedule + [Decide] + more)) == Delivered(After(n, start, schedule))
    requires var loop := After(n, start, schedule + [Decide] + more).loop; loop.Popping? || loop.Stopped?
    ensures Fresh(After(n, start, schedule + [Decide] + more)) <==> Due(After(n, start, schedule))
  {
    hide After, Delivered;
    DecideDecides(n, start, schedule);
    StaysDecided(n, start, schedule + [Decide], more, Due(After(n, start, schedule)));
  }

  // ---------------------------------------------------------------- an update that stays unpublished

  /** The thread of an exchange session. */
  const SESSION: nat := 1

  /** Everything is taken care of: nobody is in the queue, nothing is queued, and the loop is before its pop. */
  ghost predicate Calm(s: State) {
    && |s.queue.threads| > SESSION && (forall t :: 0 <= t < |s.queue.threads| ==> s.queue.threads[t] == Q.Idle)
    && s.queue.lock == None && s.queue.guarded == Q.Guarded([], false)
    && s.loop.Popping?
  }

  /** A queue of the aggregator's and one session's threads alone. */
  function Two(aggregator: Q.Pc, session: Q.Pc, lock: Option<nat>, queue: Log, events: seq<Q.Event>): (q: Q.State)
    ensures |q.threads| == 2
  {
    Q.State([aggregator, session], lock, Q.Guarded(queue, false), events)
  }

  /** The state when those two threads have moved and all the others have not. */
  function Beside(s: State, two: Q.State, loop: Loop): State
    requires |s.queue.threads| > SESSION
  {
    var threads := two.threads + s.queue.threads[2..];
    s.(queue := Q.State(threads, two.lock, two.guarded, s.queue.events + two.events), loop := loop)
  }

  /** The session pushes one update while nobody sleeps. */
  function OnePush(u: MarketUpdate): seq<Action> {
    [Queue(Q.StartPush(SESSION, u)), Queue(Q.Acquire(SESSION)), Queue(Q.RunPush(SESSION)),
     Queue(Q.Unlock(SESSION)), Queue(Q.WakeOne(SESSION, AGGREGATOR))]
  }

  /** The aggregator's pop, from its call until it returns or sleeps. */
  const ONE_POP: seq<Action> := [
    Queue(Q.StartPop(AGGREGATOR)), Queue(Q.Acquire(AGGREGATOR)), Queue(Q.RunPop(AGGREGATOR))]

  /** One update, received, applied and about to be decided. */
  function OneUpdate(u: MarketUpdate): seq<Action> {
    OnePush(u) + ONE_POP + [Apply]
  }

  /** Two threads can do beside idle ones what they can do alone. */
  lemma MovesBeside(s: State, two: Q.State, loop: Loop, a: Q.Action)
    requires Calm(s) && |two.threads| == 2 && Q.Enabled(two, a)
    ensures var before, after := Beside(s, two, loop).queue, Q.Do(two, a);
            Q.Enabled(before, a) && Q.Do(before, a) == Beside(s, after, loop).queue
  {
    hide Q.Found, Q.Pushed, Q.Popped, Q.Acquired, Q.WantsLock, Q.SomeAsleep;
    var others := s.queue.threads[2..];
    var before, after := Beside(s, two, loop).queue, Q.Do(two, a);
    SleepersBeside(s, two, loop);
    assert Q.Do(before, a).threads == after.threads + others;
    assert Q.Do(before, a).events == s.queue.events + after.events;
  }

  lemma SleepersBeside(s: State, two: Q.State, loop: Loop)
    requires Calm(s) && |two.threads| == 2
    ensures var threads := Beside(s, two, loop).queue.threads;
            && |threads| == |s.queue.threads| && threads[2..] == s.queue.threads[2..]
            && (forall t :: 0 <= t < 2 ==> threads[t] == two.threads[t])
            && (forall t :: 2 <= t < |threads| ==> threads[t] == Q.Idle)
            && (Q.SomeAsleep(threads) <==> Q.SomeAsleep(two.threads))
  {
    var threads := Beside(s, two, loop).queue.threads;
    assert forall t :: 0 <= t < 2 ==> threads[t] == two.threads[t];
  }

  lemma MoveTo(n: nat, start: int, schedule: seq<Action>, a: Q.Action, longer: seq<Action>,
               s: State, two: Q.State, loop: Loop, done: Q.State, next: Loop)
    requires Calm(s) && |two.threads| == 2 && Q.Enabled(two, a) && Q.Do(two, a) == done
    requires Returned(loop, done.events, |two.events|) == next
    requires After(n, start, schedule) == Beside(s, two, loop) && longer == schedule + [Queue(a)]
    requires Permitted(Beside(s, two, loop), a)
    ensures After(n, start, longer) == Beside(s, done, next)
  {
    MovesBeside(s, two, loop, a);
    AfterOne(n, start, schedule, Queue(a));
  }

  lemma OnePushRuns(n: nat, start: int, schedule: seq<Action>, u: MarketUpdate)
    requires Calm(After(n, start, schedule))
    ensures After(n, start, schedule + OnePush(u))
         == Beside(After(n, start, schedule), Two(Q.Idle, Q.Idle, None, [u], [Q.Accepted(SESSION, u)]), Popping)
  {
    hide After, Calm;
    var s, run, e := After(n, start, schedule), OnePush(u), [Q.Accepted(SESSION, u)];
    var q0, q1 := Two(Q.Idle, Q.Idle, None, [], []), Two(Q.Idle, Q.PushLock(u), None, [], []);
    var q2, q3 := Two(Q.Idle, Q.PushHeld(u), Some(SESSION), [], []), Two(Q.Idle, Q.PushedHeld, Some(SESSION), [u], e);
    var q4, q5 := Two(Q.Idle, Q.NotifyOne, None, [u], e), Two(Q.Idle, Q.Idle, None, [u], e);
    CalmIsBeside(s);
    MoveTo(n, start, schedule, run[0].action, schedule + run[..1], s, q0, Popping, q1, Popping);
    MoveTo(n, start, schedule + run[..1], run[1].action, schedule + run[..2], s, q1, Popping, q2, Popping);
    MoveTo(n, start, schedule + run[..2], run[2].action, schedule + run[..3], s, q2, Popping, q3, Popping);
    MoveTo(n, start, schedule + run[..3], run[3].action, schedule + run[..4], s, q3, Popping, q4, Popping);
    MoveTo(n, start, schedule + run[..4], run[4].action, schedule + run, s, q4, Popping, q5, Popping);
  }

  lemma OnePopRuns(n: nat, start: int, schedule: seq<Action>, s: State, u: MarketUpdate)
    requires Calm(s)
    requires After(n, start, schedule)
          == Beside(s, Two(Q.Idle, Q.Idle, None, [u], [Q.Accepted(SESSION, u)]), Popping)
    ensures After(n, start, schedule + ONE_POP)
         == Beside(s, Two(Q.Idle, Q.Idle, None, [], [Q.Accepted(SESSION, u), Q.Delivered(AGGREGATOR, u)]), Received(u))
  {
    hide After, Calm;
    var run, e := ONE_POP, [Q.Accepted(SESSION, u)];
    var q0, q1 := Two(Q.Idle, Q.Idle, None, [u], e), Two(Q.PopLock, Q.Idle, None, [u], e);
    var q2 := Two(Q.PopHeld, Q.Idle, Some(AGGREGATOR), [u], e);
    var q3 := Two(Q.Idle, Q.Idle, None, [], e + [Q.Delivered(AGGREGATOR, u)]);
    MoveTo(n, start, schedule, run[0].action, schedule + run[..1], s, q0, Popping, q1, Popping);
    MoveTo(n, start, schedule + run[..1], run[1].action, schedule + run[..2], s, q1, Popping, q2, Popping);
    MoveTo(n, start, schedule + run[..2], run[2].action, schedule + run, s, q2, Popping, q3, Received(u));
  }

  lemma CalmIsBeside(s: State)
    requires Calm(s)
    ensures s == Beside(s, Two(Q.Idle, Q.Idle, None, [], []), Popping)
  {
    assert s.queue.threads == [Q.Idle, Q.Idle] + s.queue.threads[2..];
  }

  lemma OneSleepRuns(n: nat, start: int, schedule: seq<Action>)
    requires Calm(After(n, start, schedule))
    ensures After(n, start, schedule + ONE_POP)
         == Beside(After(n, start, schedule), Two(Q.Asleep, Q.Idle, None, [], []), Popping)
  {
    hide After, Calm;
    var s, run := After(n, start, schedule), ONE_POP;
    var q0, q1 := Two(Q.Idle, Q.Idle, None, [], []), Two(Q.PopLock, Q.Idle, None, [], []);
    var q2, q3 := Two(Q.PopHeld, Q.Idle, Some(AGGREGATOR), [], []), Two(Q.Asleep, Q.Idle, None, [], []);
    CalmIsBeside(s);
    MoveTo(n, start, schedule, run[0].action, schedule + run[..1], s, q0, Popping, q1, Popping);
    MoveTo(n, start, schedule + run[..1], run[1].action, schedule + run[..2], s, q1, Popping, q2, Popping);
    MoveTo(n, start, schedule + run[..2], run[2].action, schedule + run, s, q2, Popping, q3, Popping);
  }

  /** Nothing of the queue's has changed but that one more update has passed through, and nothing is published yet. */
  ghost predicate Passed(s: State, u: MarketUpdate, after: State) {
    && Delivered(after) == Delivered(s) + [u] && Accepted(after) == Accepted(s) + [u]
    && after.queue.threads == s.queue.threads && after.queue.lock == s.queue.lock
    && after.queue.guarded == s.queue.guarded
    && after.book == s.book && after.prefix == s.prefix
    && after.clock == s.clock && after.lastSnapshotTime == s.lastSnapshotTime
  }

  lemma OneUpdateIsApplied(n: nat, start: int, schedule: seq<Action>, u: MarketUpdate)
    requires Calm(After(n, start, schedule))
    ensures var after := After(n, start, schedule + OneUpdate(u));
            after.loop == Applied(u) && Passed(After(n, start, schedule), u, after)
  {
    hide Upsert, After;
    var s, accepted, taken := After(n, start, schedule), Q.Accepted(SESSION, u), Q.Delivered(AGGREGATOR, u);
    OnePushRuns(n, start, schedule, u);
    OnePopRuns(n, start, schedule + OnePush(u), s, u);
    AfterOne(n, start, schedule + OnePush(u) + ONE_POP, Apply);
    assert schedule + OneUpdate(u) == schedule + OnePush(u) + ONE_POP + [Apply];
    CalmIsBeside(s);
    Q.HistoryStep(s.queue.events, accepted);
    Q.HistoryStep(s.queue.events + [accepted], taken);
    assert s.queue.events + [accepted] + [taken] == s.queue.events + [accepted, taken];
  }

  /** Less than a second after the last publication, one more update takes a calm aggregator to sleep unpublished. */
  lemma OneUpdateStaysUnpublished(n: nat, start: int, schedule: seq<Action>, u: MarketUpdate)
    requires Calm(After(n, start, schedule)) && !Due(After(n, start, schedule))
    ensures var s, end := After(n, start, schedule), After(n, start, schedule + OneUpdate(u) + [Decide] + ONE_POP);
            && SleepsAlone(end) && !Fresh(end)
            && Accepted(end) == Accepted(s) + [u] && end.book == s.book
  {
    hide Upsert, After, Inv;
    var applied := schedule + OneUpdate(u);
    OneUpdateIsApplied(n, start, schedule, u);
    AfterOne(n, start, applied, Decide);
    OneSleepRuns(n, start, applied + [Decide]);
    assert After(n, start, applied + [Decide] + ONE_POP).queue.events
        == After(n, start, applied + [Decide]).queue.events;
    FreshnessIsExact(n, start, applied, ONE_POP);
  }

  lemma OneUpdateIsPublished(n: nat, start: int, schedule: seq<Action>, u: MarketUpdate)
    requires Calm(After(n, start, schedule)) && Due(After(n, start, schedule))
    ensures var s, after := After(n, start, schedule), After(n, start, schedule + OneUpdate(u) + [Decide, Overwrite]);
            && Calm(after) && !Due(after) && Fresh(after) && after.lastSnapshotTime == s.clock
            && Accepted(after) == Accepted(s) + [u]
            && after.book == BookAfter(Accepted(after)) && after.symbol == u.ticker
  {
    hide Upsert, After;
    var applied := schedule + OneUpdate(u);
    OneUpdateIsApplied(n, start, schedule, u);
    AfterOne(n, start, applied, Decide);
    AfterOne(n, start, applied + [Decide], Overwrite);
    assert applied + [Decide] + [Overwrite] == applied + [Decide, Overwrite];
    AggregatorCatchesUp(n, start, applied + [Decide, Overwrite]);
  }

  /**
   The clock moves on and the loop follows it: once a second, a thousand million nanoseconds, has
   passed since the last publication, the next update that comes to a calm aggregator is published at
   once, together with everything accepted before it.
   */
  lemma NextUpdateIsPublished(n: nat, start: int, schedule: seq<Action>, now: int, u: MarketUpdate)
    requires Calm(After(n, start, schedule)) && now >= After(n, start, schedule).clock
    requires now - After(n, start, schedule).lastSnapshotTime >= 1_000_000_000
    ensures var s := After(n, start, schedule);
            var after := After(n, start, schedule + [Tick(now)] + OneUpdate(u) + [Decide, Overwrite]);
            && Calm(after) && Fresh(after) && after.lastSnapshotTime == now
            && Accepted(after) == Accepted(s) + [u]
            && after.book == BookAfter(Accepted(s) + [u]) && after.symbol == u.ticker
  {
    hide Upsert, After, OneUpdate, BookAfter;
    var ticked := schedule + [Tick(now)];
    AfterOne(n, start, schedule, Tick(now));
    OneUpdateIsPublished(n, start, ticked, u);
  }

  /** What the withdrawal of the only quote leaves is the empty book, not the book before it. */
  lemma QuoteAndWithdrawal(u: MarketUpdate)
    requires u.quantity != 0.0
    ensures BookAfter([u]) != EMPTY_BOOK && BookAfter([u]) != BookAfter([u] + [u.(quantity := 0.0)])
  {
    hide Upsert;
    var zero := u.(quantity := 0.0);
    Appended([], u);
    FirstQuote(u);
    assert [] + [u] == [u];
    assert |BookAfter([u]).On(u.side)| == 1;
    Appended([u], zero);
    Requote(u.side, Write(ZEROS, u.exchange, u.quantity), zero);
  }

  /**
   A witness for any start of the clock: a run of a few steps after which the aggregator sleeps beside
   an empty queue while clients go on getting a book that is not that of the accepted updates. Either
   the first quote is missing from it, or it still has a quote that its exchange has withdrawn.
   */
  lemma SharedBookGoesStale(n: nat, start: int, u: MarketUpdate) returns (schedule: seq<Action>)
    requires n > SESSION && u.quantity != 0.0
    ensures var s := After(n, start, schedule);
            SleepsAlone(s) && !Fresh(s) && s.book != BookAfter(Accepted(s))
  {
    hide Upsert, Fresh, SleepsAlone, OneUpdate, LevelsAfter;
    var zero, publish := u.(quantity := 0.0), OneUpdate(u) + [Decide, Overwrite];
    QuoteAndWithdrawal(u);
    assert [] + OneUpdate(u) == OneUpdate(u) && [] + [u] == [u];
    assert Accepted(After(n, start, [])) == [];
    if start < SECOND {
      OneUpdateStaysUnpublished(n, start, [], u);
      schedule := OneUpdate(u) + [Decide] + ONE_POP;
    } else {
      OneUpdateIsPublished(n, start, [], u);
      OneUpdateStaysUnpublished(n, start, publish, zero);
      schedule := publish + OneUpdate(zero) + [Decide] + ONE_POP;
    }
  }
}
