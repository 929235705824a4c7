/** One turn of the aggregator's loop on the real objects, and its place among the atomic steps. */
module AggregatorThread {
  import opened Market
  import opened Levels
  import opened Consolidation
  import opened Aggregation
  import opened Publication
  import P = Pipeline

  class AggregatorLoop {
    const aggregator: Aggregator
    const service: MarketDataService
    var lastSnapshotTime: int

    ghost predicate Valid()
      reads this, service, aggregator, aggregator.ask, aggregator.bid, aggregator.ask.Repr, aggregator.bid.Repr
    {
      && aggregator.Valid()
      && this !in aggregator.ask.Repr + aggregator.bid.Repr
      && service !in aggregator.ask.Repr + aggregator.bid.Repr
    }

    constructor ()
      ensures Valid() && fresh(aggregator) && fresh(service) && fresh(aggregator.ask.Repr) && fresh(aggregator.bid.Repr)
      ensures aggregator.History == [] && lastSnapshotTime == 0
      ensures service.symbol == "" && service.book == EMPTY_BOOK
    {
      aggregator := new Aggregator();
      service := new MarketDataService();
      lastSnapshotTime := 0;
    }

    /** What the loop does with a popped update when the clock reads `now`. */
    method Turn(update: MarketUpdate, now: int)
      requires Valid()
      modifies this, service, aggregator, aggregator.ask.Repr, aggregator.bid.Repr
      ensures Valid()
      ensures fresh(aggregator.ask.Repr - old(aggregator.ask.Repr))
      ensures fresh(aggregator.bid.Repr - old(aggregator.bid.Repr))
      ensures aggregator.History == old(aggregator.History) + [update]
      ensures if now - old(lastSnapshotTime) >= P.SECOND then
                && service.symbol == update.ticker
                && service.book == BookAfter(aggregator.History)
                && lastSnapshotTime == now
              else
                && service.symbol == old(service.symbol)
                && service.book == old(service.book)
                && lastSnapshotTime == old(lastSnapshotTime)
    {
      aggregator.OnUpdate(update);
      if now - lastSnapshotTime >= P.SECOND {
        var book := aggregator.GenerateBook();
        service.OverwriteBook(book, update.ticker);
        lastSnapshotTime := now;
      }
    }
  }

  /**
   The turn is the sequence of atomic steps between two pops: with nobody else in between, they
   leave what the method leaves.
   */
  lemma TurnIsItsSteps(s: P.State)
    requires P.Inv(s) && s.loop.Received?
    ensures P.Enabled(s, P.Apply) && P.Enabled(P.Do(s, P.Apply), P.Decide)
    ensures var applied := P.Do(s, P.Apply);
            var decided := P.Do(applied, P.Decide);
            var done := if decided.loop.Publishing? then P.Do(decided, P.Overwrite) else decided;
            var history := P.History(s) + [s.loop.update];
            && done.loop == P.Popping
            && P.History(done) == history
            && done.ask == LevelsAfter(history, ASK) && done.bid == LevelsAfter(history, BID)
            && if s.clock - s.lastSnapshotTime >= P.SECOND then
                 && done.symbol == s.loop.update.ticker
                 && done.book == BookAfter(history)
                 && done.lastSnapshotTime == s.clock
               else
                 && done.symbol == s.symbol
                 && done.book == s.book
                 && done.lastSnapshotTime == s.lastSnapshotTime
  {
    hide Upsert, LevelsAfter, P.SharedIsPrefix, P.ServedInOrder, P.Throttled, P.Roles;
    P.LoopIsFaithfulKept(s, P.Apply);
  }
}
