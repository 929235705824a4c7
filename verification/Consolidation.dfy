/**
 What the consolidated book means: for every side, price and exchange the last written quantity
 counts. The aggregator's state is proved to refine this log, although it erases levels.
 */
module Consolidation {
  import opened Market
  import opened Slots
  import opened Levels

  type Log = seq<MarketUpdate>

  /** One side of the aggregator after a run of updates. */
  function LevelsAfter(log: Log, side: Side): seq<Level> {
    if log == [] then []
    else
      var before, u := LevelsAfter(log[..|log| - 1], side), log[|log| - 1];
      if u.side == side then Upsert(side, before, u.price, u.exchange, u.quantity) else before
  }

  function BookAfter(log: Log): Book {
    Book(Quotes(LevelsAfter(log, ASK)), Quotes(LevelsAfter(log, BID)))
  }

  // ---------------------------------------------------------------- the specification

  predicate Hits(u: MarketUpdate, side: Side, price: real, exchange: Exchange) {
    u.side == side && u.price == price && u.exchange == exchange
  }

  /** The last quantity written for a key, zero when there is none. */
  function Latest(log: Log, side: Side, price: real, exchange: Exchange): real {
    if log == [] then 0.0
    else if Hits(log[|log| - 1], side, price, exchange) then log[|log| - 1].quantity
    else Latest(log[..|log| - 1], side, price, exchange)
  }

  lemma LatestStep(log: Log, u: MarketUpdate, side: Side, price: real, exchange: Exchange)
    ensures Latest(log + [u], side, price, exchange)
         == if Hits(u, side, price, exchange) then u.quantity else Latest(log, side, price, exchange)
  {
    assert (log + [u])[..|log|] == log;
  }

  function LatestSlots(log: Log, side: Side, price: real): (s: Slots)
    ensures forall i :: 0 <= i < EXCHANGE_COUNT ==> s[i] == Latest(log, side, price, ExchangeAt(i))
  {
    seq(EXCHANGE_COUNT, i requires 0 <= i < EXCHANGE_COUNT => Latest(log, side, price, ExchangeAt(i)))
  }

  function LatestTotal(log: Log, side: Side, price: real): real {
    Sum(LatestSlots(log, side, price))
  }

  ghost predicate NonNegativeLog(log: Log) {
    forall i :: 0 <= i < |log| ==> log[i].quantity >= 0.0
  }

  /** The last update of the log did not leave slots that are non-zero but sum to zero. */
  ghost predicate CleanStep(log: Log)
    requires log != []
  {
    var u := log[|log| - 1];
    LatestTotal(log, u.side, u.price) == 0.0 ==> AllZero(LatestSlots(log, u.side, u.price))
  }

  /** No update of the run made `total() == 0.0` true on a level that `empty()` calls non-empty. */
  ghost predicate Clean(log: Log) {
    forall k :: 0 < k <= |log| ==> CleanStep(log[..k])
  }

  // ---------------------------------------------------------------- refinement

  lemma LatestSlotsStep(log: Log, side: Side, price: real)
    requires log != []
    ensures var u, front := log[|log| - 1], log[..|log| - 1];
            LatestSlots(log, side, price) ==
            if u.side == side && u.price == price
            then Write(LatestSlots(front, side, price), u.exchange, u.quantity)
            else LatestSlots(front, side, price)
  {
    var u, front := log[|log| - 1], log[..|log| - 1];
    forall i | 0 <= i < EXCHANGE_COUNT
      ensures LatestSlots(log, side, price)[i] ==
              if u.side == side && u.price == price && i == Index(u.exchange) then u.quantity
              else LatestSlots(front, side, price)[i]
    {
      IndexOfExchangeAt(i);
    }
  }

  lemma LatestSlotsOfNothing(side: Side, price: real)
    ensures LatestSlots([], side, price) == ZEROS
  {
  }

  lemma {:induction false} LatestNonNegative(log: Log, side: Side, price: real, exchange: Exchange)
    requires NonNegativeLog(log)
    ensures Latest(log, side, price, exchange) >= 0.0
  {
    if log != [] {
      LatestNonNegative(log[..|log| - 1], side, price, exchange);
    }
  }

  lemma LatestSlotsNonNegative(log: Log, side: Side, price: real)
    requires NonNegativeLog(log)
    ensures NonNegative(LatestSlots(log, side, price))
  {
    forall i | 0 <= i < EXCHANGE_COUNT ensures LatestSlots(log, side, price)[i] >= 0.0 {
      LatestNonNegative(log, side, price, ExchangeAt(i));
    }
  }

  /** Without negative quantities every run is clean. */
  lemma NonNegativeIsClean(log: Log)
    requires NonNegativeLog(log)
    ensures Clean(log)
  {
    forall k | 0 < k <= |log| ensures CleanStep(log[..k]) {
      var u := log[k - 1];
      LatestSlotsNonNegative(log[..k], u.side, u.price);
      TotalZeroIffEmpty(LatestSlots(log[..k], u.side, u.price));
    }
  }

  lemma CleanPrefix(log: Log, k: nat)
    requires Clean(log) && k <= |log|
    ensures Clean(log[..k])
  {
    forall j | 0 < j <= k ensures CleanStep(log[..k][..j]) {
      assert log[..k][..j] == log[..j];
    }
  }

  /** Every side the aggregator can reach is strictly sorted and shows no zero total. */
  lemma {:induction false} LevelsAreOrdered(log: Log, side: Side)
    ensures SortedLevels(side, LevelsAfter(log, side))
    ensures NoZeroTotal(LevelsAfter(log, side))
  {
    if log != [] {
      var front, u := log[..|log| - 1], log[|log| - 1];
      LevelsAreOrdered(front, side);
      UpsertKeepsOrder(side, LevelsAfter(front, side), u.price, u.exchange, u.quantity);
    }
  }

  /** One step of the refinement: agreement survives exactly the clean updates. */
  lemma StepRefines(log: Log, side: Side, price: real)
    requires log != []
    requires var u, front := log[|log| - 1], log[..|log| - 1];
             SlotsAt(LevelsAfter(front, side), price) == LatestSlots(front, side, price)
    ensures var u := log[|log| - 1];
            SlotsAt(LevelsAfter(log, side), price) == LatestSlots(log, side, price)
            <==> (u.side == side && u.price == price ==> CleanStep(log))
  {
    hide Sum, AllZero, Latest, Upsert, SlotsAt;
    var u, front := log[|log| - 1], log[..|log| - 1];
    LatestSlotsStep(log, side, price);
    if u.side == side {
      LevelsAreOrdered(front, side);
      UpsertLookup(side, LevelsAfter(front, side), u.price, u.exchange, u.quantity, price);
      AllZeroIsZeros(LatestSlots(log, side, price));
    }
  }

  /** The pruned, incrementally maintained side holds the latest quantity of every key. */
  lemma {:induction false} SlotsAreLatest(log: Log, side: Side, price: real)
    requires Clean(log)
    ensures SlotsAt(LevelsAfter(log, side), price) == LatestSlots(log, side, price)
  {
    if log == [] {
      LatestSlotsOfNothing(side, price);
    } else {
      CleanPrefix(log, |log| - 1);
      SlotsAreLatest(log[..|log| - 1], side, price);
      assert log[..|log|] == log;
      assert CleanStep(log[..|log|]);
      StepRefines(log, side, price);
    }
  }

  ghost predicate HoldsLatest(log: Log) {
    forall side, price :: SlotsAt(LevelsAfter(log, side), price) == LatestSlots(log, side, price)
  }

  /**
   Exactly when erasing forgets nothing: the state holds the latest quantities after every prefix
   of the run if and only if no update made a non-empty level total zero.
   */
  lemma {:induction false} RefinementIsExact(log: Log)
    ensures (forall k :: 0 <= k <= |log| ==> HoldsLatest(log[..k])) <==> Clean(log)
  {
    if Clean(log) {
      forall k | 0 <= k <= |log| ensures HoldsLatest(log[..k]) {
        CleanPrefix(log, k);
        forall side, price ensures SlotsAt(LevelsAfter(log[..k], side), price) == LatestSlots(log[..k], side, price) {
          SlotsAreLatest(log[..k], side, price);
        }
      }
    }
    if forall k :: 0 <= k <= |log| ==> HoldsLatest(log[..k]) {
      forall k | 0 < k <= |log| ensures CleanStep(log[..k]) {
        var prefix := log[..k];
        assert prefix[..k - 1] == log[..k - 1];
        assert HoldsLatest(log[..k - 1]) && HoldsLatest(prefix);
        StepRefines(prefix, log[k - 1].side, log[k - 1].price);
      }
    }
  }

  lemma QuoteIsListed(log: Log, side: Side, quote: Quote)
    requires Clean(log)
    ensures quote in BookAfter(log).On(side) <==> quote.quantity == LatestTotal(log, side, quote.price) != 0.0
  {
    var levels := LevelsAfter(log, side);
    LevelsAreOrdered(log, side);
    SlotsAreLatest(log, side, quote.price);
    SumOfZeros(ZEROS);
    if quote in Quotes(levels) {
      var i :| 0 <= i < |levels| && Quotes(levels)[i] == quote;
      SlotsAtListed(side, levels, i);
    }
    if quote.quantity == LatestTotal(log, side, quote.price) != 0.0 {
      var i := NonZeroIsListed(levels, quote.price);
      assert Quotes(levels)[i] == quote;
    }
  }

  /**
   Last writer wins. Each side of the book is strictly sorted and lists exactly the prices whose
   latest per-exchange quantities do not sum to zero, each with that sum.
   */
  lemma LastWriterWins(log: Log, side: Side)
    requires Clean(log)
    ensures Sorted(side, BookAfter(log).On(side))
    ensures forall quote :: quote in BookAfter(log).On(side)
                       <==> quote.quantity == LatestTotal(log, side, quote.price) != 0.0
  {
    LevelsAreOrdered(log, side);
    forall quote
      ensures quote in BookAfter(log).On(side) <==> quote.quantity == LatestTotal(log, side, quote.price) != 0.0
    {
      QuoteIsListed(log, side, quote);
    }
  }

  /** With non-negative quantities every listed total is positive. */
  lemma ListedTotalsArePositive(log: Log, side: Side)
    requires NonNegativeLog(log)
    ensures forall i :: 0 <= i < |BookAfter(log).On(side)| ==> BookAfter(log).On(side)[i].quantity > 0.0
  {
    NonNegativeIsClean(log);
    forall i | 0 <= i < |BookAfter(log).On(side)| ensures BookAfter(log).On(side)[i].quantity > 0.0 {
      var quote := BookAfter(log).On(side)[i];
      QuoteIsListed(log, side, quote);
      LatestSlotsNonNegative(log, side, quote.price);
      TotalZeroIffEmpty(LatestSlots(log, side, quote.price));
    }
  }

  /** Two clean runs with the same latest quantities show the same book. */
  lemma BookIsDetermined(a: Log, b: Log)
    requires Clean(a) && Clean(b)
    requires forall side, price :: LatestSlots(a, side, price) == LatestSlots(b, side, price)
    ensures BookAfter(a) == BookAfter(b)
  {
    forall side ensures LevelsAfter(a, side) == LevelsAfter(b, side) {
      LevelsAreOrdered(a, side);
      LevelsAreOrdered(b, side);
      forall price ensures SlotsAt(LevelsAfter(a, side), price) == SlotsAt(LevelsAfter(b, side), price) {
        SlotsAreLatest(a, side, price);
        SlotsAreLatest(b, side, price);
      }
      LevelsAreDetermined(side, LevelsAfter(a, side), LevelsAfter(b, side));
    }
    assert LevelsAfter(a, ASK) == LevelsAfter(b, ASK) && LevelsAfter(a, BID) == LevelsAfter(b, BID);
  }

  // ---------------------------------------------------------------- one exchange's part

  /** One exchange's own stream inside a log. */
  function StreamOf(log: Log, exchange: Exchange): (s: Log)
    ensures forall i :: 0 <= i < |s| ==> s[i] in log && s[i].exchange == exchange
  {
    if log == [] then []
    else
      var u := log[|log| - 1];
      var before := StreamOf(log[..|log| - 1], exchange);
      if u.exchange == exchange then before + [u] else before
  }

  lemma {:induction false} LatestOfStream(log: Log, side: Side, price: real, exchange: Exchange)
    ensures Latest(StreamOf(log, exchange), side, price, exchange) == Latest(log, side, price, exchange)
  {
    if log != [] {
      var front, u := log[..|log| - 1], log[|log| - 1];
      LatestOfStream(front, side, price, exchange);
      LatestStep(StreamOf(front, exchange), u, side, price, exchange);
    }
  }

  lemma {:induction false} OthersAreSilent(log: Log, side: Side, price: real, exchange: Exchange, other: Exchange)
    requires other != exchange
    ensures Latest(StreamOf(log, exchange), side, price, other) == 0.0
  {
    if log != [] {
      var front, u := log[..|log| - 1], log[|log| - 1];
      OthersAreSilent(front, side, price, exchange, other);
      LatestStep(StreamOf(front, exchange), u, side, price, other);
    }
  }

  /** At every price, an exchange's own total is its latest quantity there. */
  lemma StreamTotalIsLatest(log: Log, side: Side, price: real, exchange: Exchange)
    ensures LatestTotal(StreamOf(log, exchange), side, price) == Latest(log, side, price, exchange)
  {
    var own := LatestSlots(StreamOf(log, exchange), side, price);
    var alone := Write(ZEROS, exchange, Latest(log, side, price, exchange));
    LatestOfStream(log, side, price, exchange);
    forall i | 0 <= i < |own| ensures own[i] == alone[i] {
      IndexOfExchangeAt(i);
      if ExchangeAt(i) != exchange {
        OthersAreSilent(log, side, price, exchange, ExchangeAt(i));
      }
    }
    assert own == alone;
    SumOfZeros(ZEROS);
    SumOfWrite(ZEROS, exchange, Latest(log, side, price, exchange));
  }

  // ---------------------------------------------------------------- withdrawal

  /** The run with one exchange's updates left out. */
  function Without(log: Log, exchange: Exchange): (s: Log)
    ensures forall i :: 0 <= i < |s| ==> s[i] in log
  {
    if log == [] then []
    else
      var u := log[|log| - 1];
      var before := Without(log[..|log| - 1], exchange);
      if u.exchange != exchange then before + [u] else before
  }

  lemma {:induction false} LatestWithout(log: Log, gone: Exchange, side: Side, price: real, exchange: Exchange)
    ensures Latest(Without(log, gone), side, price, exchange)
         == if exchange == gone then 0.0 else Latest(log, side, price, exchange)
  {
    if log != [] {
      var front, u := log[..|log| - 1], log[|log| - 1];
      LatestWithout(front, gone, side, price, exchange);
      LatestStep(Without(front, gone), u, side, price, exchange);
    }
  }

  ghost predicate Writes(log: Log, side: Side, price: real, exchange: Exchange) {
    exists i :: 0 <= i < |log| && Hits(log[i], side, price, exchange)
  }

  lemma {:induction false} LatestAfterMore(log: Log, more: Log, side: Side, price: real, exchange: Exchange)
    ensures Latest(log + more, side, price, exchange)
         == Latest(if Writes(more, side, price, exchange) then more else log, side, price, exchange)
  {
    if more == [] {
      assert log + more == log;
    } else {
      var n := |more| - 1;
      assert (log + more)[..|log + more| - 1] == log + more[..n];
      LatestAfterMore(log, more[..n], side, price, exchange);
      if !Hits(more[n], side, price, exchange) {
        assert Writes(more, side, price, exchange) ==> Writes(more[..n], side, price, exchange);
        assert Writes(more[..n], side, price, exchange) ==> Writes(more, side, price, exchange) by {
          if i :| 0 <= i < n && Hits(more[..n][i], side, price, exchange) {
            assert Hits(more[i], side, price, exchange);
          }
        }
      }
    }
  }

  lemma {:induction false} LatestUnwritten(log: Log, side: Side, price: real, exchange: Exchange)
    requires !Writes(log, side, price, exchange)
    ensures Latest(log, side, price, exchange) == 0.0
  {
    if log != [] {
      var front := log[..|log| - 1];
      assert !Hits(log[|log| - 1], side, price, exchange);
      forall i | 0 <= i < |front| ensures !Hits(front[i], side, price, exchange) {
        var same := Hits(log[i], side, price, exchange);
      }
      LatestUnwritten(front, side, price, exchange);
    }
  }

  lemma {:induction false} LatestOfZeros(log: Log, side: Side, price: real, exchange: Exchange)
    requires forall i :: 0 <= i < |log| ==> log[i].quantity == 0.0
    ensures Latest(log, side, price, exchange) == 0.0
  {
    if log != [] {
      LatestOfZeros(log[..|log| - 1], side, price, exchange);
    }
  }

  /** Zero quantities from one exchange, in any order, for at least every key that it wrote. */
  ghost predicate Withdraws(withdrawal: Log, log: Log, exchange: Exchange) {
    && (forall i :: 0 <= i < |withdrawal| ==> withdrawal[i].exchange == exchange && withdrawal[i].quantity == 0.0)
    && (forall side, price :: Writes(log, side, price, exchange) ==> Writes(withdrawal, side, price, exchange))
  }

  /** After an exchange withdraws everything, the book is as if it had never written. */
  lemma WithdrawalRestores(log: Log, withdrawal: Log, gone: Exchange)
    requires Withdraws(withdrawal, log, gone)
    requires Clean(log + withdrawal) && Clean(Without(log, gone))
    ensures BookAfter(log + withdrawal) == BookAfter(Without(log, gone))
  {
    forall side, price
      ensures LatestSlots(log + withdrawal, side, price) == LatestSlots(Without(log, gone), side, price)
    {
      forall i | 0 <= i < EXCHANGE_COUNT
        ensures LatestSlots(log + withdrawal, side, price)[i] == LatestSlots(Without(log, gone), side, price)[i]
      {
        var e := ExchangeAt(i);
        LatestAfterMore(log, withdrawal, side, price, e);
        LatestWithout(log, gone, side, price, e);
        LatestOfZeros(withdrawal, side, price, e);
        if e == gone && !Writes(log, side, price, e) {
          LatestUnwritten(log, side, price, e);
        }
      }
    }
    BookIsDetermined(log + withdrawal, Without(log, gone));
  }

  // ---------------------------------------------------------------- pruning

  /** An aggregator that never erases: every price ever written keeps its slots. */
  function KeptAfter(log: Log, side: Side): map<real, Slots> {
    if log == [] then map[]
    else
      var before, u := KeptAfter(log[..|log| - 1], side), log[|log| - 1];
      if u.side != side then before
      else before[u.price := Write(if u.price in before then before[u.price] else ZEROS, u.exchange, u.quantity)]
  }

  lemma {:induction false} KeptIsLatest(log: Log, side: Side, price: real)
    ensures var kept := KeptAfter(log, side);
            LatestSlots(log, side, price) == if price in kept then kept[price] else ZEROS
  {
    if log == [] {
      LatestSlotsOfNothing(side, price);
    } else {
      KeptIsLatest(log[..|log| - 1], side, price);
      LatestSlotsStep(log, side, price);
    }
  }

  /** After any clean run, the erasing and the never-erasing aggregator show the same non-zero levels. */
  lemma PruningIsUnobservable(log: Log, side: Side)
    requires Clean(log)
    ensures var kept := KeptAfter(log, side);
            forall quote :: quote in BookAfter(log).On(side)
                       <==> quote.price in kept && quote.quantity == Sum(kept[quote.price]) != 0.0
  {
    SumOfZeros(ZEROS);
    forall quote
      ensures quote in BookAfter(log).On(side)
         <==> quote.price in KeptAfter(log, side) && quote.quantity == Sum(KeptAfter(log, side)[quote.price]) != 0.0
    {
      QuoteIsListed(log, side, quote);
      KeptIsLatest(log, side, quote.price);
    }
  }

  function WriteAll(slots: Slots, writes: seq<(Exchange, real)>): Slots
    decreases |writes|
  {
    if writes == [] then slots else WriteAll(Write(slots, writes[0].0, writes[0].1), writes[1..])
  }

  /**
   Erasing a level whose total is zero can be noticed by some later writes to it
   unless every one of its slots is zero.
   */
  lemma ErasureIsExact(slots: Slots)
    requires Sum(slots) == 0.0
    ensures (forall writes :: Sum(WriteAll(slots, writes)) == Sum(WriteAll(ZEROS, writes))) <==> AllZero(slots)
  {
    if AllZero(slots) {
      assert slots == ZEROS;
    } else {
      var i :| 0 <= i < |slots| && slots[i] != 0.0;
      var writes := [(ExchangeAt(i), 0.0)];
      IndexOfExchangeAt(i);
      SumUpdate(slots, i, 0.0);
      SumOfZeros(ZEROS);
      assert Write(ZEROS, ExchangeAt(i), 0.0) == ZEROS;
      assert WriteAll(slots, writes) == Write(slots, ExchangeAt(i), 0.0) by { assert writes[1..] == []; }
      assert WriteAll(ZEROS, writes) == ZEROS by { assert writes[1..] == []; }
      assert Sum(WriteAll(slots, writes)) != Sum(WriteAll(ZEROS, writes));
    }
  }
}
