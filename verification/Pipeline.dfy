/**
 The whole hand-off as interleaved atomic steps: the threads of the queue, the aggregator's loop, the
 clock, and the clients that read the shared snapshot at any time.
 */
module Pipeline {
  import opened Market
  import opened Levels
  import opened Consolidation
  import Q = BlockingQueue
  import opened Publication
  import opened Transparency
  import BestExecution
  import opened QueueProgress
  import opened Independence

  /** The aggregator's thread; all the others only push or shut down. */
  const AGGREGATOR: nat := 0

  /** The shortest time between two publications, in nanoseconds. */
  const SECOND: int := 1000000000

  /** Where the aggregator's loop is. */
  datatype Loop =
    | Popping
    | Received(update: MarketUpdate)
    | Applied(update: MarketUpdate)
    | Publishing(symbol: string, book: Book, now: int)
    | Stopped

  /** What a client got; `prefix` records how many updates the served book was built from. */
  datatype Served = Served(client: nat, snapshot: Snapshot, prefix: nat)

  datatype State = State(
    queue: Q.State,
    loop: Loop,
    ask: seq<Level>,
    bid: seq<Level>,
    clock: int,
    lastSnapshotTime: int,
    publications: seq<int>,
    symbol: string,
    book: Book,
    prefix: nat,
    served: seq<Served>)

  datatype Action =
    | Queue(action: Q.Action)
    | Apply
    | Tick(now: int)
    | Decide
    | Overwrite
    | Read(client: nat)

  function Initial(n: nat, start: int): State {
    State(Q.Initial(n), Popping, [], [], start, 0, [], "", EMPTY_BOOK, 0, [])
  }

  /** The aggregator only pops, between two turns of its loop; nobody else does. */
  predicate Permitted(s: State, a: Q.Action) {
    && (a.StartPop? ==> a.t == AGGREGATOR && s.loop.Popping?)
    && (a.StartPush? || a.StartShutdown? ==> a.t != AGGREGATOR)
  }

  ghost predicate Enabled(s: State, a: Action) {
    match a
    case Queue(action) => Permitted(s, action) && Q.Enabled(s.queue, action)
    case Apply => s.loop.Received?
    case Tick(now) => now >= s.clock
    case Decide => s.loop.Applied?
    case Overwrite => s.loop.Publishing?
    case Read(_) => true
  }

  /** How the loop goes on once its pop has returned. */
  function Returned(loop: Loop, events: seq<Q.Event>, known: nat): Loop {
    if |events| <= known || events[|events| - 1].thread != AGGREGATOR then loop
    else match events[|events| - 1]
      case Delivered(_, u) => Received(u)
      case FoundDrained(_) => Stopped
      case _ => loop
  }

  ghost function Do(s: State, a: Action): State
    requires Enabled(s, a)
  {
    match a
    case Queue(action) =>
      var queue := Q.Do(s.queue, action);
      s.(queue := queue, loop := Returned(s.loop, queue.events, |s.queue.events|))
    case Apply =>
      var u := s.loop.update;
      if u.side == ASK then s.(ask := Upsert(ASK, s.ask, u.price, u.exchange, u.quantity), loop := Applied(u))
      else s.(bid := Upsert(BID, s.bid, u.price, u.exchange, u.quantity), loop := Applied(u))
    case Tick(now) => s.(clock := now)
    case Decide =>
      if s.clock - s.lastSnapshotTime >= SECOND then
        s.(loop := Publishing(s.loop.update.ticker, Book(Quotes(s.ask), Quotes(s.bid)), s.clock))
      else s.(loop := Popping)
    case Overwrite =>
      s.(symbol := s.loop.symbol, book := s.loop.book, lastSnapshotTime := s.loop.now,
         publications := s.publications + [s.loop.now],
         prefix := |Q.DeliveredIn(s.queue.events)|, loop := Popping)
    case Read(client) =>
      s.(served := s.served + [Served(client, Decode(Encode(s.symbol, s.book)), s.prefix)])
  }

  /** The state after a schedule; a step that is not possible at its turn is skipped. */
  ghost function After(n: nat, start: int, schedule: seq<Action>): State {
    if schedule == [] then Initial(n, start)
    else
      var before, a := After(n, start, schedule[..|schedule| - 1]), schedule[|schedule| - 1];
      if Enabled(before, a) then Do(before, a) else before
  }

  // ---------------------------------------------------------------- invariant

  function Delivered(s: State): Log {
    Q.DeliveredIn(s.queue.events)
  }

  /** The updates that the aggregator has applied: all that were delivered but the one in its hand. */
  function History(s: State): Log {
    if s.loop.Received? && Delivered(s) != [] then Delivered(s)[..|Delivered(s)| - 1] else Delivered(s)
  }

  /** The symbol of the last update of a log. */
  function SymbolOf(log: Log): string {
    if log == [] then "" else log[|log| - 1].ticker
  }

  /** The aggregator's thread is never in a push or a shutdown, the others never in a pop. */
  ghost predicate Roles(s: State) {
    forall t :: 0 <= t < |s.queue.threads| ==>
      var pc := s.queue.threads[t];
      if t == AGGREGATOR then
        && (pc.Idle? || pc.PopLock? || pc.PopHeld? || pc.Asleep? || pc.Woken?)
        && (!pc.Idle? ==> s.loop.Popping?)
      else !pc.PopLock? && !pc.PopHeld? && !pc.Asleep? && !pc.Woken?
  }

  /** The aggregator's state is what its history leaves; a book about to be published is that history's book. */
  ghost predicate LoopIsFaithful(s: State) {
    var history := History(s);
    && s.ask == LevelsAfter(history, ASK) && s.bid == LevelsAfter(history, BID)
    && (match s.loop
        case Received(u) => Delivered(s) == history + [u]
        case Applied(u) => history != [] && history[|history| - 1] == u
        case Publishing(symbol, book, _) => history != [] && symbol == SymbolOf(history) && book == BookAfter(history)
        case _ => true)
  }

  /** The shared snapshot is the book of a prefix of what was delivered. */
  ghost predicate SharedIsPrefix(s: State) {
    && s.prefix <= |History(s)| <= |Delivered(s)|
    && s.symbol == SymbolOf(Delivered(s)[..s.prefix])
    && s.book == BookAfter(Delivered(s)[..s.prefix])
  }

  ghost predicate ServedIsPrefix(s: State, served: Served) {
    && served.prefix <= s.prefix
    && served.prefix <= |Delivered(s)|
    && served.snapshot == Snapshot(SymbolOf(Delivered(s)[..served.prefix]), BookAfter(Delivered(s)[..served.prefix]))
  }

  ghost predicate ServedInOrder(s: State) {
    && (forall i :: 0 <= i < |s.served| ==> ServedIsPrefix(s, s.served[i]))
    && (forall i, j :: 0 <= i <= j < |s.served| ==> s.served[i].prefix <= s.served[j].prefix)
  }

  /** Publications are at least a second apart, and none is in the future. */
  ghost predicate Throttled(s: State) {
    && (forall i :: 0 < i < |s.publications| ==> s.publications[i] - s.publications[i - 1] >= SECOND)
    && s.lastSnapshotTime == (if s.publications == [] then 0 else s.publications[|s.publications| - 1])
    && (s.loop.Publishing? ==> s.loop.now - s.lastSnapshotTime >= SECOND && s.loop.now <= s.clock)
    && (forall i :: 0 <= i < |s.publications| ==> s.publications[i] <= s.clock)
  }

  /** The loop only stops once the queue is shut down and empty. */
  ghost predicate StopsDrained(s: State) {
    s.loop.Stopped? ==> s.queue.guarded == Q.Guarded([], true)
  }

  ghost predicate Inv(s: State) {
    && Q.Inv(s.queue) && Roles(s) && StopsDrained(s)
    && LoopIsFaithful(s) && SharedIsPrefix(s) && ServedInOrder(s)
    && Throttled(s)
  }

  // ---------------------------------------------------------------- preservation

  /** A step of the queue delivers to the aggregator alone, and only while its loop is popping. */
  lemma QueueStep(s: State, action: Q.Action)
    requires Enabled(s, Queue(action)) && Roles(s)
    ensures var after := Do(s, Queue(action));
            || (Delivered(after) == Delivered(s)
                && (after.loop == s.loop || (s.loop.Popping? && after.loop.Stopped?)))
            || (s.loop.Popping? && after.loop.Received?
                && Delivered(after) == Delivered(s) + [after.loop.update])
  {
    var queue := Q.Do(s.queue, action);
    Q.StepIsEvent(s.queue, action);
    var known := |s.queue.events|;
    if |queue.events| > known {
      Q.HistoryStep(s.queue.events, queue.events[known]);
    }
  }

  lemma RolesKept(s: State, a: Action)
    requires Enabled(s, a) && Roles(s)
    ensures Roles(Do(s, a))
  {
    if a.Queue? {
      QueueStep(s, a.action);
      RolesKeptInQueue(s, a.action);
    }
  }

  lemma RolesKeptInQueue(s: State, action: Q.Action)
    requires Enabled(s, Queue(action)) && Roles(s)
    ensures Roles(Do(s, Queue(action)))
  {
    var after := Do(s, Queue(action));
    forall t | 0 <= t < |after.queue.threads|
      ensures var pc := after.queue.threads[t];
              if t == AGGREGATOR then
                && (pc.Idle? || pc.PopLock? || pc.PopHeld? || pc.Asleep? || pc.Woken?)
                && (!pc.Idle? ==> after.loop.Popping?)
              else !pc.PopLock? && !pc.PopHeld? && !pc.Asleep? && !pc.Woken?
    {
      var pc := s.queue.threads[t];
    }
  }

  lemma StopsDrainedKept(s: State, a: Action)
    requires Enabled(s, a) && StopsDrained(s) && Roles(s)
    ensures StopsDrained(Do(s, a))
  {
    hide Q.Do, Q.Enabled, Roles, Upsert;
    if a.Queue? {
      Q.StepIsEvent(s.queue, a.action);
    }
  }

  lemma LoopIsFaithfulKept(s: State, a: Action)
    requires Enabled(s, a) && Roles(s) && LoopIsFaithful(s)
    ensures LoopIsFaithful(Do(s, a))
  {
    hide Upsert, Q.Do, Q.Enabled;
    match a
    case Queue(action) =>
      QueueStep(s, action);
      var d := Delivered(Do(s, a));
      assert d != [] ==> d == d[..|d| - 1] + [d[|d| - 1]];
    case Apply =>
      ApplyIsFaithful(s);
    case _ =>
  }

  lemma ApplyIsFaithful(s: State)
    requires s.loop.Received? && LoopIsFaithful(s)
    ensures LoopIsFaithful(Do(s, Apply))
  {
    hide Upsert, Q.Do, Q.Enabled;
    var history, u := History(s), s.loop.update;
    assert (history + [u])[..|history|] == history;
  }

  /** Nothing that was delivered is ever taken back, and the history never shrinks. */
  lemma DeliveredGrows(s: State, a: Action)
    requires Enabled(s, a) && Roles(s) && LoopIsFaithful(s)
    ensures Delivered(s) <= Delivered(Do(s, a))
    ensures |History(s)| <= |History(Do(s, a))| <= |Delivered(Do(s, a))|
  {
    hide Upsert, Q.Do, Q.Enabled, Roles;
    if a.Queue? {
      QueueStep(s, a.action);
    }
  }

  lemma SharedIsPrefixKept(s: State, a: Action)
    requires Enabled(s, a) && Roles(s) && LoopIsFaithful(s) && SharedIsPrefix(s)
    ensures SharedIsPrefix(Do(s, a))
    ensures s.prefix <= Do(s, a).prefix
  {
    hide Upsert, Q.Do, Q.Enabled, Roles, BookAfter;
    var after := Do(s, a);
    DeliveredGrows(s, a);
    if a.Overwrite? {
      assert Delivered(s)[..|Delivered(s)|] == Delivered(s);
    } else {
      assert Delivered(after)[..s.prefix] == Delivered(s)[..s.prefix];
    }
  }

  lemma ServedInOrderKept(s: State, a: Action)
    requires Enabled(s, a) && Roles(s) && LoopIsFaithful(s) && SharedIsPrefix(s) && ServedInOrder(s)
    ensures ServedInOrder(Do(s, a))
  {
    hide Upsert, Q.Do, Q.Enabled, Roles, LoopIsFaithful, BookAfter;
    var after := Do(s, a);
    DeliveredGrows(s, a);
    SharedIsPrefixKept(s, a);
    if a.Read? {
      ServedIsWhatWasHeld(s.symbol, s.book);
      assert ServedIsPrefix(s, after.served[|s.served|]);
    }
    forall i | 0 <= i < |after.served| ensures ServedIsPrefix(after, after.served[i]) {
      assert ServedIsPrefix(s, after.served[i]);
      ServedStays(s, after, after.served[i]);
    }
  }

  lemma ServedStays(s: State, after: State, served: Served)
    requires ServedIsPrefix(s, served)
    requires Delivered(s) <= Delivered(after) && s.prefix <= after.prefix
    ensures ServedIsPrefix(after, served)
  {
    assert Delivered(after)[..served.prefix] == Delivered(s)[..served.prefix];
  }

  lemma ThrottledKept(s: State, a: Action)
    requires Enabled(s, a) && Throttled(s) && Roles(s)
    ensures Throttled(Do(s, a))
  {
    hide Upsert, Q.Do, Q.Enabled, Roles, LoopIsFaithful, Quotes;
    if a.Queue? {
      QueueStep(s, a.action);
    }
  }

  lemma InvKept(s: State, a: Action)
    requires Enabled(s, a) && Inv(s)
    ensures Inv(Do(s, a))
  {
    hide Roles, StopsDrained, LoopIsFaithful, SharedIsPrefix, ServedInOrder, Throttled, Q.Inv, Q.Enabled, Q.Do;
    RolesKept(s, a);
    StopsDrainedKept(s, a);
    LoopIsFaithfulKept(s, a);
    SharedIsPrefixKept(s, a);
    ServedInOrderKept(s, a);
    ThrottledKept(s, a);
    if a.Queue? {
      Q.InvKept(s.queue, a.action);
    }
  }

  lemma {:induction false} ReachableInv(n: nat, start: int, schedule: seq<Action>)
    ensures Inv(After(n, start, schedule))
  {
    if schedule == [] {
      Q.ReachableInv(n, []);
    } else {
      var front, a := schedule[..|schedule| - 1], schedule[|schedule| - 1];
      ReachableInv(n, start, front);
      if Enabled(After(n, start, front), a) {
        InvKept(After(n, start, front), a);
      }
    }
  }

  // ---------------------------------------------------------------- what clients can rely on

  /** The updates that the queue has accepted, in order. */
  function Accepted(s: State): Log {
    Q.AcceptedIn(s.queue.events)
  }

  /**
   In every interleaving, each served snapshot is the book of a prefix of the accepted updates with
   the symbol of that prefix's last update (of no update: the initial, empty one), and no later
   read, by any client, goes back to an earlier prefix.
   */
  lemma SnapshotsAreConsistent(n: nat, start: int, schedule: seq<Action>)
    ensures var s := After(n, start, schedule);
            && (forall i :: 0 <= i < |s.served| ==>
                  var k := s.served[i].prefix;
                  && k <= |Accepted(s)|
                  && s.served[i].snapshot == Snapshot(SymbolOf(Accepted(s)[..k]), BookAfter(Accepted(s)[..k])))
            && (forall i, j :: 0 <= i <= j < |s.served| ==> s.served[i].prefix <= s.served[j].prefix)
  {
    var s := After(n, start, schedule);
    ReachableInv(n, start, schedule);
    forall i | 0 <= i < |s.served|
      ensures var k := s.served[i].prefix;
              && k <= |Accepted(s)|
              && s.served[i].snapshot == Snapshot(SymbolOf(Accepted(s)[..k]), BookAfter(Accepted(s)[..k]))
    {
      var k := s.served[i].prefix;
      assert ServedIsPrefix(s, s.served[i]);
      assert Accepted(s) == Delivered(s) + s.queue.guarded.queue;
      assert Accepted(s)[..k] == Delivered(s)[..k];
    }
  }

  /** Nothing is queued, and the loop holds no update that it has not applied. */
  ghost predicate Drained(s: State) {
    s.queue.guarded.queue == [] && !s.loop.Received?
  }

  /** Nothing accepted is lost on the way: once drained, the aggregator's sides are those of all accepted updates. */
  lemma AggregatorCatchesUp(n: nat, start: int, schedule: seq<Action>)
    ensures var s := After(n, start, schedule);
            Drained(s) ==> s.ask == LevelsAfter(Accepted(s), ASK) && s.bid == LevelsAfter(Accepted(s), BID)
  {
    hide Roles, Q.NoLostWakeUp, SharedIsPrefix, ServedInOrder, Throttled, LevelsAfter;
    var s := After(n, start, schedule);
    ReachableInv(n, start, schedule);
    assert s.queue.guarded.queue == [] ==> Accepted(s) == Delivered(s);
  }

  /** The aggregator sleeps in its pop and all the other threads are outside the queue. */
  ghost predicate SleepsAlone(s: State) {
    && AtRest(s.queue)
    && AGGREGATOR < |s.queue.threads| && s.queue.threads[AGGREGATOR].Asleep?
  }

  /** Whenever the loop has stopped or sleeps alone, the pipeline is drained. */
  lemma EndsDrained(n: nat, start: int, schedule: seq<Action>)
    ensures var s := After(n, start, schedule);
            s.loop.Stopped? || SleepsAlone(s) ==> Drained(s)
  {
    hide Q.NoLostWakeUp, SharedIsPrefix, ServedInOrder, Throttled, LoopIsFaithful;
    var s := After(n, start, schedule);
    ReachableInv(n, start, schedule);
    if SleepsAlone(s) {
      RestIsDry(s.queue);
      SleeperIsPopping(s);
    }
  }

  lemma SleeperIsPopping(s: State)
    requires Roles(s) && SleepsAlone(s)
    ensures s.loop.Popping?
  {
  }

  /**
   Scheduling does not matter in the end: two runs of the whole system, with any numbers of threads,
   that accepted the same updates from each exchange in the same order per exchange hold the same
   book once they are drained, whether their loops sleep, have stopped, or are about to go on.
   */
  lemma FinalBookIsIndependent(n: nat, start: int, schedule: seq<Action>, m: nat, begin: int, other: seq<Action>)
    requires Drained(After(n, start, schedule)) && Drained(After(m, begin, other))
    requires Clean(Accepted(After(n, start, schedule))) && Clean(Accepted(After(m, begin, other)))
    requires SameStreams(Accepted(After(n, start, schedule)), Accepted(After(m, begin, other)))
    ensures var s, t := After(n, start, schedule), After(m, begin, other);
            Book(Quotes(s.ask), Quotes(s.bid)) == Book(Quotes(t.ask), Quotes(t.bid))
  {
    hide After;
    AggregatorCatchesUp(n, start, schedule);
    AggregatorCatchesUp(m, begin, other);
    InterleavingIndependence(Accepted(After(n, start, schedule)), Accepted(After(m, begin, other)));
  }

  // ---------------------------------------------------------------- without a shutdown

  /** No thread is shutting the queue down, and none has. */
  ghost predicate NoShutdown(s: State) {
    && !s.queue.guarded.shutdown && !s.loop.Stopped?
    && forall t :: 0 <= t < |s.queue.threads| ==>
         var pc := s.queue.threads[t];
         !pc.ShutLock? && !pc.ShutHeld? && !pc.ShutSetHeld? && !pc.NotifyAll?
  }

  lemma NoShutdownKept(s: State, a: Action)
    requires Enabled(s, a) && NoShutdown(s) && !(a.Queue? && a.action.StartShutdown?)
    ensures NoShutdown(Do(s, a))
  {
    hide Upsert, Quotes;
    if a.Queue? {
      Q.StepIsEvent(s.queue, a.action);
      QueueKeepsNoShutdown(s, a.action);
    }
  }

  lemma QueueKeepsNoShutdown(s: State, action: Q.Action)
    requires Enabled(s, Queue(action)) && NoShutdown(s) && !action.StartShutdown?
    ensures var after := Do(s, Queue(action)).queue;
            && !after.guarded.shutdown
            && forall t :: 0 <= t < |after.threads| ==>
                 var pc := after.threads[t];
                 !pc.ShutLock? && !pc.ShutHeld? && !pc.ShutSetHeld? && !pc.NotifyAll?
  {
    forall t | 0 <= t < |s.queue.threads|
      ensures var pc := Do(s, Queue(action)).queue.threads[t];
              !pc.ShutLock? && !pc.ShutHeld? && !pc.ShutSetHeld? && !pc.NotifyAll?
    {
      var pc := s.queue.threads[t];
    }
  }

  /** As long as nobody asks for a shutdown, and the program never does, the queue stays open and the loop goes on. */
  lemma {:induction false} NeverStops(n: nat, start: int, schedule: seq<Action>)
    requires forall k :: 0 <= k < |schedule| ==> !(schedule[k].Queue? && schedule[k].action.StartShutdown?)
    ensures NoShutdown(After(n, start, schedule))
  {
    if schedule != [] {
      var front, a := schedule[..|schedule| - 1], schedule[|schedule| - 1];
      NeverStops(n, start, front);
      if Enabled(After(n, start, front), a) {
        NoShutdownKept(After(n, start, front), a);
      }
    }
  }

  // ---------------------------------------------------------------- publication

  /** The shared book is overwritten at most once a second. */
  lemma PublicationsAreThrottled(n: nat, start: int, schedule: seq<Action>)
    ensures var s := After(n, start, schedule);
            forall i, j :: 0 <= i < j < |s.publications| ==> s.publications[j] - s.publications[i] >= (j - i) * SECOND
  {
    var s := After(n, start, schedule);
    ReachableInv(n, start, schedule);
    forall i, j | 0 <= i < j < |s.publications| ensures s.publications[j] - s.publications[i] >= (j - i) * SECOND {
      GapsAdd(s.publications, i, j);
    }
  }

  lemma {:induction false} GapsAdd(times: seq<int>, i: nat, j: nat)
    requires i < j < |times|
    requires forall k :: 0 < k < |times| ==> times[k] - times[k - 1] >= SECOND
    ensures times[j] - times[i] >= (j - i) * SECOND
  {
    if i + 1 < j {
      GapsAdd(times, i, j - 1);
    }
  }

  /**
   End to end: whatever snapshot a client was served, a band that it computes from it is no worse
   than the one from any single exchange's own accepted updates at that point.
   */
  lemma ServedBandsBeatEveryExchange(n: nat, start: int, schedule: seq<Action>, i: nat,
                                     side: Side, exchange: Exchange, notional: real)
    requires i < |After(n, start, schedule).served|
    requires SaneLog(Accepted(After(n, start, schedule))) && notional > 0.0
    ensures var s := After(n, start, schedule);
            && s.served[i].prefix <= |Accepted(s)|
            && BestExecution.BandIsNoWorse(side, s.served[i].snapshot.book.On(side),
                 BookAfter(StreamOf(Accepted(s)[..s.served[i].prefix], exchange)).On(side), notional)
  {
    hide BestExecution.BandIsNoWorse;
    var s := After(n, start, schedule);
    SnapshotsAreConsistent(n, start, schedule);
    BestExecution.ConsolidatedIsNoWorse(Accepted(s)[..s.served[i].prefix], side, exchange, notional);
  }

  /** Nor is it worse than any split of the notional over all the exchanges' own books at that point. */
  lemma ServedBandsBeatEverySplit(n: nat, start: int, schedule: seq<Action>, i: nat,
                                  side: Side, parts: seq<real>, notional: real)
    requires i < |After(n, start, schedule).served|
    requires SaneLog(Accepted(After(n, start, schedule))) && notional > 0.0
    requires var s := After(n, start, schedule);
             && s.served[i].prefix <= |Accepted(s)|
             && BestExecution.Splits(Accepted(s)[..s.served[i].prefix], side, parts, notional)
    ensures var s := After(n, start, schedule);
            BestExecution.BandBeatsSplit(s.served[i].snapshot.book.On(side),
              Accepted(s)[..s.served[i].prefix], side, parts, notional)
  {
    hide BestExecution.BandBeatsSplit;
    var s := After(n, start, schedule);
    SnapshotsAreConsistent(n, start, schedule);
    BestExecution.SplitIsNoBetter(Accepted(s)[..s.served[i].prefix], side, parts, notional);
  }
}
