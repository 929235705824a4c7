/**
 Whole runs against their schedule: what the queue went through, what the clock reads, what every
 client got, and which turns of the loop published what.
 */
module Turns {
  import opened Market
  import opened Levels
  import opened Consolidation
  import opened Publication
  import opened Pipeline

  // ---------------------------------------------------------------- queue and clock

  /** The steps that the queue's threads take on a schedule. */
  ghost function QueueSteps(n: nat, start: int, schedule: seq<Action>): seq<Q.Action> {
    if schedule == [] then []
    else
      var front, a := schedule[..|schedule| - 1], schedule[|schedule| - 1];
      QueueSteps(n, start, front) + if a.Queue? && Enabled(After(n, start, front), a) then [a.action] else []
  }

  /** Inside the system the queue is the queue: all that holds in every run of the monitor holds here. */
  lemma {:induction false} QueueRunsAlone(n: nat, start: int, schedule: seq<Action>)
    ensures After(n, start, schedule).queue == Q.After(n, QueueSteps(n, start, schedule))
  {
    hide Q.Do, Q.Enabled, Upsert, Quotes;
    if schedule != [] {
      var front, a := schedule[..|schedule| - 1], schedule[|schedule| - 1];
      var steps := QueueSteps(n, start, front);
      QueueRunsAlone(n, start, front);
      if a.Queue? && Enabled(After(n, start, front), a) {
        assert (steps + [a.action])[..|steps|] == steps;
      } else {
        assert steps + [] == steps;
      }
    }
  }

  /** The loop holds no thread up but its own, and that one only in a turn. */
  lemma NobodyIsHeldUp(s: State, a: Q.Action)
    requires Q.Enabled(s.queue, a)
    ensures a.t != AGGREGATOR && !a.StartPop? ==> Enabled(s, Queue(a))
    ensures a.t == AGGREGATOR && !a.StartPush? && !a.StartPop? && !a.StartShutdown? ==> Enabled(s, Queue(a))
    ensures a == Q.StartPop(AGGREGATOR) && s.loop.Popping? ==> Enabled(s, Queue(a))
  {
  }

  /** The clock reads the latest time that it has been set to. */
  lemma {:induction false} ClockIsLatest(n: nat, start: int, schedule: seq<Action>)
    ensures var clock := After(n, start, schedule).clock;
            && clock >= start
            && (forall k :: 0 <= k < |schedule| && schedule[k].Tick? ==> clock >= schedule[k].now)
            && (clock == start || exists k :: 0 <= k < |schedule| && schedule[k] == Tick(clock))
  {
    hide Q.Do, Q.Enabled, Upsert, Quotes;
    if schedule != [] {
      var n0 := |schedule| - 1;
      var front, a := schedule[..n0], schedule[n0];
      ClockIsLatest(n, start, front);
      var before, clock := After(n, start, front).clock, After(n, start, schedule).clock;
      assert forall k :: 0 <= k < n0 ==> schedule[k] == front[k];
      if clock != start {
        if a == Tick(clock) {
          assert schedule[n0] == Tick(clock);
        } else {
          var k :| 0 <= k < |front| && front[k] == Tick(before);
          assert schedule[k] == Tick(clock);
        }
      }
    }
  }

  // ---------------------------------------------------------------- reads

  /** What each client should get: the symbol and the book that the service holds when it reads. */
  ghost function Reads(n: nat, start: int, schedule: seq<Action>): seq<Served> {
    if schedule == [] then []
    else
      var front, a := schedule[..|schedule| - 1], schedule[|schedule| - 1];
      var s := After(n, start, front);
      Reads(n, start, front) + if a.Read? then [Served(a.client, Snapshot(s.symbol, s.book), s.prefix)] else []
  }

  lemma ServedStep(s: State, a: Action)
    requires Enabled(s, a)
    ensures Do(s, a).served
         == s.served + if a.Read? then [Served(a.client, Snapshot(s.symbol, s.book), s.prefix)] else []
  {
    hide Q.Do, Q.Enabled, Upsert, Quotes, Encode, Decode;
    ServedIsWhatWasHeld(s.symbol, s.book);
  }

  /** Every read is answered, at once, with what the service holds at that moment. */
  lemma {:induction false} ReadsAreCurrent(n: nat, start: int, schedule: seq<Action>)
    ensures After(n, start, schedule).served == Reads(n, start, schedule)
  {
    hide Do;
    if schedule != [] {
      var front, a := schedule[..|schedule| - 1], schedule[|schedule| - 1];
      ReadsAreCurrent(n, start, front);
      if Enabled(After(n, start, front), a) {
        ServedStep(After(n, start, front), a);
      }
    }
  }

  // ---------------------------------------------------------------- turns

  /** What the clock reads in each turn of the loop, when it decides whether to publish. */
  ghost function TurnTimes(n: nat, start: int, schedule: seq<Action>): seq<int> {
    if schedule == [] then []
    else
      var front, a := schedule[..|schedule| - 1], schedule[|schedule| - 1];
      var s := After(n, start, front);
      TurnTimes(n, start, front) + if a.Decide? && s.loop.Applied? then [s.clock] else []
  }

  /**
   The turns that publish: each one that comes a second, which is a thousand million nanoseconds, or
   more after the last one that does; before the first, the time counts from zero.
   */
  function DueTurns(times: seq<int>): (turns: seq<nat>)
    ensures forall i :: 0 <= i < |turns| ==> turns[i] < |times|
  {
    if times == [] then []
    else
      var k := |times| - 1;
      var before := DueTurns(times[..k]);
      var last := if before == [] then 0 else times[before[|before| - 1]];
      if times[k] - last >= 1_000_000_000 then before + [k] else before
  }

  /** The turns that have finished publishing. */
  function PublishedTurns(loop: Loop, times: seq<int>): (turns: seq<nat>)
    ensures forall i :: 0 <= i < |turns| ==> turns[i] < |times|
  {
    var due := DueTurns(times);
    if loop.Publishing? && due != [] then due[..|due| - 1] else due
  }

  function TimesOf(times: seq<int>, turns: seq<nat>): seq<int>
    requires forall i :: 0 <= i < |turns| ==> turns[i] < |times|
  {
    seq(|turns|, i requires 0 <= i < |turns| => times[turns[i]])
  }

  /** The loop has had one turn for each update that it has finished with, and has published in the due ones. */
  ghost predicate TurnsAre(s: State, times: seq<int>) {
    var due, published := DueTurns(times), PublishedTurns(s.loop, times);
    && |Delivered(s)| == |times| + (if s.loop.Received? || s.loop.Applied? then 1 else 0)
    && (s.loop.Publishing? ==>
          due != [] && due[|due| - 1] == |times| - 1 && s.loop.now == times[|times| - 1])
    && s.prefix == (if published == [] then 0 else published[|published| - 1] + 1)
    && s.publications == TimesOf(times, published)
  }

  lemma DueTurnsStep(times: seq<int>, now: int)
    ensures var due := DueTurns(times);
            var last := if due == [] then 0 else times[due[|due| - 1]];
            DueTurns(times + [now]) == if now - last >= 1_000_000_000 then due + [|times|] else due
  {
    assert (times + [now])[..|times|] == times;
  }

  /** A turn later, the earlier ones are still where they were. */
  lemma TimesStay(times: seq<int>, now: int, turns: seq<nat>)
    requires forall i :: 0 <= i < |turns| ==> turns[i] < |times|
    ensures TimesOf(times + [now], turns) == TimesOf(times, turns)
    ensures |TimesOf(times, turns)| == |turns|
    ensures turns != [] ==> TimesOf(times, turns)[|turns| - 1] == times[turns[|turns| - 1]]
  {
  }

  lemma DecideStep(s: State)
    requires s.loop.Applied?
    ensures var after := Do(s, Decide);
            && Delivered(after) == Delivered(s) && after.prefix == s.prefix && after.publications == s.publications
            && (if s.clock - s.lastSnapshotTime >= SECOND then after.loop.Publishing? && after.loop.now == s.clock
                else after.loop.Popping?)
  {
    hide Upsert, Quotes, Q.Do, Q.Enabled, Q.DeliveredIn;
  }

  lemma DecideKeepsTurns(s: State, times: seq<int>)
    requires s.loop.Applied? && TurnsAre(s, times)
    requires s.lastSnapshotTime == (if s.publications == [] then 0 else s.publications[|s.publications| - 1])
    ensures TurnsAre(Do(s, Decide), times + [s.clock])
  {
    hide Do, Delivered, DueTurns, TimesOf;
    var due, after := DueTurns(times), Do(s, Decide);
    DecideStep(s);
    DueTurnsStep(times, s.clock);
    TimesStay(times, s.clock, due);
    assert (due + [|times|])[..|due|] == due;
    assert PublishedTurns(after.loop, times + [s.clock]) == due;
  }

  lemma OthersKeepTurns(s: State, a: Action, times: seq<int>)
    requires Enabled(s, a) && !a.Decide? && Roles(s) && TurnsAre(s, times)
    ensures TurnsAre(Do(s, a), times)
  {
    hide Upsert, Quotes, DueTurns, Roles, Q.Do, Q.Enabled;
    if a.Queue? {
      QueueStep(s, a.action);
    }
  }

  /**
   Publication, exactly: in every reachable state the loop has had one turn for every delivered update
   but the one in its hand, and what is shared is the book and the symbol of the accepted updates up to
   the last turn that was due, published at the time of that turn.
   */
  lemma {:induction false} PublicationIsExact(n: nat, start: int, schedule: seq<Action>)
    ensures var s, times := After(n, start, schedule), TurnTimes(n, start, schedule);
            && TurnsAre(s, times)
            && s.prefix <= |Accepted(s)|
            && s.book == BookAfter(Accepted(s)[..s.prefix]) && s.symbol == SymbolOf(Accepted(s)[..s.prefix])
  {
    hide Do, TurnsAre, Roles, Throttled, LoopIsFaithful, ServedInOrder, BookAfter;
    var s := After(n, start, schedule);
    ReachableInv(n, start, schedule);
    assert Accepted(s)[..s.prefix] == Delivered(s)[..s.prefix];
    if schedule == [] {
      NoTurns(n, start);
    } else {
      var front, a := schedule[..|schedule| - 1], schedule[|schedule| - 1];
      var before := After(n, start, front);
      PublicationIsExact(n, start, front);
      ReachableInv(n, start, front);
      if Enabled(before, a) {
        if a.Decide? {
          LastIsPublished(before);
          DecideKeepsTurns(before, TurnTimes(n, start, front));
        } else {
          OthersKeepTurns(before, a, TurnTimes(n, start, front));
        }
      }
      assert !(a.Decide? && before.loop.Applied?) ==>
          TurnTimes(n, start, front) + [] == TurnTimes(n, start, front);
    }
  }

  lemma LastIsPublished(s: State)
    requires Throttled(s)
    ensures s.lastSnapshotTime == (if s.publications == [] then 0 else s.publications[|s.publications| - 1])
  {
  }

  lemma NoTurns(n: nat, start: int)
    ensures TurnsAre(Initial(n, start), [])
  {
  }
}
