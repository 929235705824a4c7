/** Session statistics: running state over every snapshot received so far. */
module SessionStatistics {
  import opened Market

  datatype Stats = Stats(
    currentAskPrice: Option<real>,
    currentBidPrice: Option<real>,
    spread: Option<real>,
    crossedBook: Option<bool>,
    lowestAskPrice: Option<real>,
    highestBidPrice: Option<real>,
    askLevelCount: nat,
    bidLevelCount: nat)

  const NO_STATS := Stats(None, None, None, None, None, None, 0, 0)

  /** Some snapshot of the session has a level at the price. */
  ghost predicate Shows(session: seq<Book>, side: Side, price: real) {
    exists s, i :: 0 <= s < |session| && 0 <= i < |session[s].On(side)| && session[s].On(side)[i].price == price
  }

  /** The best level of the latest snapshot that is not empty on the side. */
  function LatestBest(session: seq<Book>, side: Side): Option<real> {
    if session == [] then None
    else if session[|session| - 1].On(side) != [] then Some(session[|session| - 1].On(side)[0].price)
    else LatestBest(session[..|session| - 1], side)
  }

  /** The best price of all levels of all snapshots: the minimum of the asks, the maximum of the bids. */
  ghost predicate IsBestEver(session: seq<Book>, side: Side, best: Option<real>) {
    match best
    case None => forall price :: !Shows(session, side, price)
    case Some(v) => Shows(session, side, v) && forall price :: Shows(session, side, price) ==> !Before(side, price, v)
  }

  function LevelCount(session: seq<Book>, side: Side): nat {
    if session == [] then 0 else |session[|session| - 1].On(side)|
  }

  /** What the statistics mean, as a relation to the whole session. */
  ghost predicate Summarises(stats: Stats, session: seq<Book>) {
    && stats.askLevelCount == LevelCount(session, ASK)
    && stats.bidLevelCount == LevelCount(session, BID)
    && stats.currentAskPrice == LatestBest(session, ASK)
    && stats.currentBidPrice == LatestBest(session, BID)
    && IsBestEver(session, ASK, stats.lowestAskPrice)
    && IsBestEver(session, BID, stats.highestBidPrice)
    && (if stats.currentAskPrice.Some? && stats.currentBidPrice.Some? then
          && stats.spread == Some(stats.currentAskPrice.value - stats.currentBidPrice.value)
          && stats.crossedBook == Some(stats.currentAskPrice.value <= stats.currentBidPrice.value)
        else stats.spread == None && stats.crossedBook == None)
  }

  class Statistics {
    var stats: Stats
    ghost var Session: seq<Book>

    ghost predicate Valid()
      reads this
    {
      Summarises(stats, Session)
    }

    constructor ()
      ensures Valid() && Session == []
    {
      stats := NO_STATS;
      Session := [];
    }

    /** Reading `.value` in the loops is safe: the optional prices are set whenever there is a level to compare. */
    method Compute(book: Book) returns (result: Stats)
      requires Valid()
      modifies this
      ensures Valid() && Session == old(Session) + [book]
      ensures result == stats
    {
      hide Shows, LatestBest, IsBestEver, BestSoFar, LevelCount;
      ghost var before, session := Session, Session + [book];
      BestBefore(before, book, ASK, stats.lowestAskPrice);
      BestBefore(before, book, BID, stats.highestBidPrice);
      stats := stats.(askLevelCount := |book.ask|, bidLevelCount := |book.bid|);
      if |book.ask| > 0 {
        stats := stats.(currentAskPrice := Some(book.ask[0].price));
      }
      if |book.bid| > 0 {
        stats := stats.(currentBidPrice := Some(book.bid[0].price));
      }
      if stats.lowestAskPrice.None? && stats.currentAskPrice.Some? {
        stats := stats.(lowestAskPrice := Some(stats.currentAskPrice.value));
      }
      if stats.highestBidPrice.None? && stats.currentBidPrice.Some? {
        stats := stats.(highestBidPrice := Some(stats.currentBidPrice.value));
      }
      ghost var entry := stats;
      for i := 0 to |book.ask|
        invariant stats == entry.(lowestAskPrice := stats.lowestAskPrice)
        invariant BestSoFar(before, book, i, ASK, stats.lowestAskPrice)
      {
        BestSoFarStep(before, book, i, ASK, stats.lowestAskPrice);
        var lowest := stats.lowestAskPrice.value;
        stats := stats.(lowestAskPrice := Some(if book.ask[i].price < lowest then book.ask[i].price else lowest));
      }
      entry := stats;
      for i := 0 to |book.bid|
        invariant stats == entry.(highestBidPrice := stats.highestBidPrice)
        invariant BestSoFar(before, book, i, BID, stats.highestBidPrice)
      {
        BestSoFarStep(before, book, i, BID, stats.highestBidPrice);
        var highest := stats.highestBidPrice.value;
        stats := stats.(highestBidPrice := Some(if highest < book.bid[i].price then book.bid[i].price else highest));
      }
      if stats.currentAskPrice.Some? && stats.currentBidPrice.Some? {
        stats := stats.(
          spread := Some(stats.currentAskPrice.value - stats.currentBidPrice.value),
          crossedBook := Some(stats.currentAskPrice.value <= stats.currentBidPrice.value));
      } else {
        stats := stats.(spread := None, crossedBook := None);
      }
      BestSoFarEnd(before, book, ASK, stats.lowestAskPrice);
      BestSoFarEnd(before, book, BID, stats.highestBidPrice);
      Session := session;
      return stats;
    }
  }

  /** The best price over the session so far and the first `k` levels of the snapshot being read. */
  ghost predicate BestSoFar(before: seq<Book>, book: Book, k: nat, side: Side, best: Option<real>)
    requires k <= |book.On(side)|
  {
    && (best.None? ==> book.On(side) == [] && IsBestEver(before, side, None))
    && (best.Some? ==>
          && Shows(before + [book], side, best.value)
          && (forall price :: Shows(before, side, price) ==> !Before(side, price, best.value))
          && (forall i :: 0 <= i < k ==> !Before(side, book.On(side)[i].price, best.value)))
  }

  /** The value that the loop over a side's levels starts from. */
  function Entry(best: Option<real>, current: Option<real>): Option<real> {
    if best.None? then current else best
  }

  lemma BestBefore(before: seq<Book>, book: Book, side: Side, best: Option<real>)
    requires IsBestEver(before, side, best)
    ensures var quotes := book.On(side);
            && LevelCount(before + [book], side) == |quotes|
            && LatestBest(before + [book], side)
               == (if quotes != [] then Some(quotes[0].price) else LatestBest(before, side))
    ensures BestSoFar(before, book, 0, side, Entry(best, LatestBest(before + [book], side)))
  {
    Extended(before, book, side);
  }

  lemma BestSoFarStep(before: seq<Book>, book: Book, k: nat, side: Side, best: Option<real>)
    requires k < |book.On(side)| && BestSoFar(before, book, k, side, best)
    ensures best.Some?
    ensures var price := book.On(side)[k].price;
            BestSoFar(before, book, k + 1, side, Some(if Before(side, price, best.value) then price else best.value))
  {
    Extended(before, book, side);
  }

  lemma BestSoFarEnd(before: seq<Book>, book: Book, side: Side, best: Option<real>)
    requires BestSoFar(before, book, |book.On(side)|, side, best)
    ensures IsBestEver(before + [book], side, best)
  {
    Extended(before, book, side);
  }

  /** What one more snapshot does to everything that the statistics are about. */
  lemma Extended(before: seq<Book>, book: Book, side: Side)
    ensures var session, quotes := before + [book], book.On(side);
            && LatestBest(session, side) == (if quotes != [] then Some(quotes[0].price) else LatestBest(before, side))
            && LevelCount(session, side) == |quotes|
            && (forall price :: Shows(session, side, price)
                           <==> Shows(before, side, price) || exists i :: 0 <= i < |quotes| && quotes[i].price == price)
    ensures LatestBest(before, side).Some? ==> Shows(before, side, LatestBest(before, side).value)
    ensures LatestBest(before, side).None? ==> forall price :: !Shows(before, side, price)
  {
    var session, quotes := before + [book], book.On(side);
    assert session[..|before|] == before;
    forall price
      ensures Shows(session, side, price)
         <==> Shows(before, side, price) || exists i :: 0 <= i < |quotes| && quotes[i].price == price
    {
      ShowsOneMore(before, book, side, price);
    }
    LatestBestIsShown(before, side);
  }

  lemma ShowsOneMore(before: seq<Book>, book: Book, side: Side, price: real)
    ensures Shows(before + [book], side, price)
       <==> Shows(before, side, price) || exists i :: 0 <= i < |book.On(side)| && book.On(side)[i].price == price
  {
    var session, n := before + [book], |before|;
    if i :| 0 <= i < |book.On(side)| && book.On(side)[i].price == price {
      assert session[n].On(side)[i].price == price;
    }
    if s, i :| 0 <= s < |before| && 0 <= i < |before[s].On(side)| && before[s].On(side)[i].price == price {
      assert session[s].On(side)[i].price == price;
    }
  }

  lemma {:induction false} LatestBestIsShown(session: seq<Book>, side: Side)
    ensures LatestBest(session, side).Some? ==> Shows(session, side, LatestBest(session, side).value)
    ensures LatestBest(session, side).None? ==> forall price :: !Shows(session, side, price)
  {
    if session != [] {
      var front, last := session[..|session| - 1], session[|session| - 1];
      assert session == front + [last];
      LatestBestIsShown(front, side);
      forall price
        ensures Shows(session, side, price)
           <==> Shows(front, side, price) || exists i :: 0 <= i < |last.On(side)| && last.On(side)[i].price == price
      {
        ShowsOneMore(front, last, side, price);
      }
    }
  }

  /** The relation leaves no freedom: it determines every field from the snapshots alone. */
  lemma SummaryIsUnique(a: Stats, b: Stats, session: seq<Book>)
    requires Summarises(a, session) && Summarises(b, session)
    ensures a == b
  {
    assert a.lowestAskPrice == b.lowestAskPrice && a.highestBidPrice == b.highestBidPrice;
  }

  /** The best level of snapshot `k`, after which the side has stayed empty. */
  ghost predicate IsLatestBest(session: seq<Book>, side: Side, k: nat, price: real) {
    && k < |session| && session[k].On(side) != [] && session[k].On(side)[0].price == price
    && forall s :: k < s < |session| ==> session[s].On(side) == []
  }

  lemma {:induction false} LatestBestIsLatest(session: seq<Book>, side: Side)
    ensures var best := LatestBest(session, side);
            if best.Some? then exists k :: IsLatestBest(session, side, k, best.value)
            else forall s :: 0 <= s < |session| ==> session[s].On(side) == []
  {
    if session != [] {
      var n := |session| - 1;
      var front := session[..n];
      if session[n].On(side) != [] {
        assert IsLatestBest(session, side, n, session[n].On(side)[0].price);
      } else {
        LatestBestIsLatest(front, side);
        if LatestBest(front, side).Some? {
          var price := LatestBest(front, side).value;
          var k :| IsLatestBest(front, side, k, price);
          assert IsLatestBest(session, side, k, price);
        } else {
          assert forall s :: 0 <= s < n ==> front[s] == session[s];
        }
      }
    }
  }

  /**
   Every figure against the snapshots themselves: the counts and the current prices are of the latest
   snapshots, the extremes are over all of them, and the spread is the ask above the bid.
   */
  lemma FiguresAreTheSessions(stats: Stats, session: seq<Book>)
    requires Summarises(stats, session) && session != []
    ensures var last := session[|session| - 1];
            stats.askLevelCount == |last.ask| && stats.bidLevelCount == |last.bid|
    ensures stats.currentAskPrice.Some? ==> exists k :: IsLatestBest(session, ASK, k, stats.currentAskPrice.value)
    ensures stats.currentBidPrice.Some? ==> exists k :: IsLatestBest(session, BID, k, stats.currentBidPrice.value)
    ensures stats.currentAskPrice.Some? <==> stats.lowestAskPrice.Some?
    ensures stats.currentBidPrice.Some? <==> stats.highestBidPrice.Some?
    ensures forall s, i :: 0 <= s < |session| && 0 <= i < |session[s].ask| ==>
              stats.lowestAskPrice.Some? && stats.lowestAskPrice.value <= session[s].ask[i].price
    ensures forall s, i :: 0 <= s < |session| && 0 <= i < |session[s].bid| ==>
              stats.highestBidPrice.Some? && stats.highestBidPrice.value >= session[s].bid[i].price
    ensures stats.lowestAskPrice.Some? ==> Shows(session, ASK, stats.lowestAskPrice.value)
    ensures stats.highestBidPrice.Some? ==> Shows(session, BID, stats.highestBidPrice.value)
    ensures stats.spread.Some? ==>
              && stats.currentAskPrice.Some? && stats.currentBidPrice.Some?
              && stats.spread.value == stats.currentAskPrice.value - stats.currentBidPrice.value
  {
    LatestBestIsLatest(session, ASK);
    LatestBestIsLatest(session, BID);
    LatestBestIsShown(session, ASK);
    LatestBestIsShown(session, BID);
    forall s, i | 0 <= s < |session| && 0 <= i < |session[s].ask|
      ensures stats.lowestAskPrice.Some? && stats.lowestAskPrice.value <= session[s].ask[i].price
    {
      assert session[s].On(ASK)[i].price == session[s].ask[i].price;
      assert Shows(session, ASK, session[s].ask[i].price);
    }
    forall s, i | 0 <= s < |session| && 0 <= i < |session[s].bid|
      ensures stats.highestBidPrice.Some? && stats.highestBidPrice.value >= session[s].bid[i].price
    {
      assert session[s].On(BID)[i].price == session[s].bid[i].price;
      assert Shows(session, BID, session[s].bid[i].price);
    }
  }

  ghost predicate Seen(session: seq<Book>, side: Side) {
    exists s :: 0 <= s < |session| && session[s].On(side) != []
  }

  /** Spread and crossed flag exist exactly when both sides have been seen, and agree with each other. */
  lemma SpreadExistsOnceBothSeen(stats: Stats, session: seq<Book>)
    requires Summarises(stats, session)
    ensures stats.spread.Some? <==> Seen(session, ASK) && Seen(session, BID)
    ensures stats.crossedBook.Some? <==> stats.spread.Some?
    ensures stats.spread.Some? ==> (stats.crossedBook.value <==> stats.spread.value <= 0.0)
    ensures stats.lowestAskPrice.Some? <==> Seen(session, ASK)
    ensures stats.highestBidPrice.Some? <==> Seen(session, BID)
  {
    forall side: Side
      ensures LatestBest(session, side).Some? <==> Seen(session, side)
      ensures Seen(session, side) <==> exists price :: Shows(session, side, price)
    {
      LatestBestIsShown(session, side);
      if s :| 0 <= s < |session| && session[s].On(side) != [] {
        assert Shows(session, side, session[s].On(side)[0].price);
      }
    }
  }
}
