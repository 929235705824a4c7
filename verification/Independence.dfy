/**
 When the book does not depend on how the exchanges' streams interleave: exactly when the quantities
 that may be sent cannot cancel each other out.
 */
module Independence {
  import opened Market
  import opened Slots
  import opened Levels
  import opened Consolidation

  /** However the exchanges' streams interleave, the book is the same. */
  lemma InterleavingIndependence(a: Log, b: Log)
    requires Clean(a) && Clean(b)
    requires forall exchange :: StreamOf(a, exchange) == StreamOf(b, exchange)
    ensures BookAfter(a) == BookAfter(b)
  {
    forall side, price ensures LatestSlots(a, side, price) == LatestSlots(b, side, price) {
      forall i | 0 <= i < EXCHANGE_COUNT ensures LatestSlots(a, side, price)[i] == LatestSlots(b, side, price)[i] {
        LatestOfStream(a, side, price, ExchangeAt(i));
        LatestOfStream(b, side, price, ExchangeAt(i));
      }
    }
    BookIsDetermined(a, b);
  }

  /**
   A negative quantity breaks this. One exchange quotes and then revises, another one cancels it out
   with a negative quantity: when the cancellation comes in between, the level is erased and the
   cancellation with it. The streams are the same, the books are not.
   */
  lemma NegativeQuantityBreaksIndependence(up: MarketUpdate, down: MarketUpdate, more: MarketUpdate)
    requires up.side == down.side == more.side && up.price == down.price == more.price
    requires up.exchange == more.exchange != down.exchange
    requires up.quantity > 0.0 && down.quantity == -up.quantity && more.quantity != 0.0
    ensures forall exchange :: StreamOf([up, down, more], exchange) == StreamOf([up, more, down], exchange)
    ensures !Clean([up, down, more])
    ensures BookAfter([up, down, more]) != BookAfter([up, more, down])
  {
    ThreeStreams(up, down, more);
    PassingThroughZero(up, down, more);
    assert [up, down, more][..2] == [up, down];
    CancelledLast(up, down, more);
    var a, b := LevelsAfter([up, down, more], up.side), LevelsAfter([up, more, down], up.side);
    assert Quotes(a)[0].quantity == more.quantity;
    assert b != [] ==> Quotes(b)[0].quantity == more.quantity - up.quantity;
    assert BookAfter([up, down, more]).On(up.side) == Quotes(a) && BookAfter([up, more, down]).On(up.side) == Quotes(b);
  }

  lemma ThreeStreams(up: MarketUpdate, down: MarketUpdate, more: MarketUpdate)
    requires up.exchange == more.exchange != down.exchange
    ensures forall exchange :: StreamOf([up, down, more], exchange) == StreamOf([up, more, down], exchange)
  {
    ThreeAppended(up, down, more);
    ThreeAppended(up, more, down);
  }

  lemma PassingThroughZero(up: MarketUpdate, down: MarketUpdate, more: MarketUpdate)
    requires up.side == down.side == more.side && up.price == down.price == more.price
    requires up.exchange == more.exchange != down.exchange
    requires up.quantity > 0.0 && down.quantity == -up.quantity && more.quantity != 0.0
    ensures !CleanStep([up, down])
    ensures LevelsAfter([up, down, more], up.side) == [Level(up.price, Write(ZEROS, more.exchange, more.quantity))]
    ensures Sum(Write(ZEROS, more.exchange, more.quantity)) == more.quantity
  {
    hide Sum, Latest, Upsert;
    var side, quoted := up.side, Write(ZEROS, up.exchange, up.quantity);
    ThreeAppended(up, down, more);
    LatestSlotsOfNothing(side, up.price);
    SumOfZeros(ZEROS);
    SumOfWrite(ZEROS, up.exchange, up.quantity);
    SumOfWrite(ZEROS, more.exchange, more.quantity);
    FirstQuote(up);
    FirstQuote(more);
    Requote(up.side, quoted, down);
    var both := LatestSlots([up, down], side, up.price);
    assert both == Write(quoted, down.exchange, down.quantity);
    assert both[Index(down.exchange)] != 0.0;
  }

  lemma CancelledLast(up: MarketUpdate, down: MarketUpdate, more: MarketUpdate)
    requires up.side == down.side == more.side && up.price == down.price == more.price
    requires up.exchange == more.exchange != down.exchange
    requires up.quantity > 0.0 && down.quantity == -up.quantity && more.quantity != 0.0
    ensures var revised := Write(ZEROS, more.exchange, more.quantity);
            LevelsAfter([up, more, down], up.side)
            == Settled(Level(up.price, Write(revised, down.exchange, down.quantity)))
    ensures var revised := Write(ZEROS, more.exchange, more.quantity);
            Sum(Write(revised, down.exchange, down.quantity)) == more.quantity - up.quantity
  {
    hide Sum, Latest, Upsert;
    var side := up.side;
    var quoted, revised := Write(ZEROS, up.exchange, up.quantity), Write(ZEROS, more.exchange, more.quantity);
    ThreeAppended(up, more, down);
    SumOfZeros(ZEROS);
    SumOfWrite(ZEROS, more.exchange, more.quantity);
    SumOfWrite(revised, down.exchange, down.quantity);
    FirstQuote(up);
    Requote(side, quoted, more);
    Requote(side, revised, down);
    assert Write(quoted, more.exchange, more.quantity) == revised;
  }

  lemma FirstQuote(u: MarketUpdate)
    requires u.quantity != 0.0
    ensures Upsert(u.side, [], u.price, u.exchange, u.quantity)
         == [Level(u.price, Write(ZEROS, u.exchange, u.quantity))]
    ensures Sum(Write(ZEROS, u.exchange, u.quantity)) == u.quantity
  {
    SumOfZeros(ZEROS);
    SumOfWrite(ZEROS, u.exchange, u.quantity);
  }

  lemma Requote(side: Side, slots: Slots, u: MarketUpdate)
    ensures Upsert(side, [Level(u.price, slots)], u.price, u.exchange, u.quantity)
         == Settled(Level(u.price, Write(slots, u.exchange, u.quantity)))
    ensures Sum(Write(slots, u.exchange, u.quantity)) == Sum(slots) - slots[Index(u.exchange)] + u.quantity
  {
    SumOfWrite(slots, u.exchange, u.quantity);
  }

  lemma ThreeAppended(u: MarketUpdate, v: MarketUpdate, w: MarketUpdate)
    ensures Extends([], u, [u]) && Extends([u], v, [u, v]) && Extends([u, v], w, [u, v, w])
  {
    Appended([], u);
    Appended([u], v);
    Appended([u, v], w);
    assert [] + [u] == [u] && [u] + [v] == [u, v] && [u, v] + [w] == [u, v, w];
  }

  /** What appending one update to a log does to everything read off the log. */
  ghost predicate Extends(log: Log, u: MarketUpdate, longer: Log) {
    && longer == log + [u]
    && (forall side :: LevelsAfter(longer, side) ==
          if u.side == side then Upsert(side, LevelsAfter(log, side), u.price, u.exchange, u.quantity)
          else LevelsAfter(log, side))
    && LatestSlots(longer, u.side, u.price) == Write(LatestSlots(log, u.side, u.price), u.exchange, u.quantity)
    && (forall exchange :: StreamOf(longer, exchange) ==
          if u.exchange == exchange then StreamOf(log, exchange) + [u] else StreamOf(log, exchange))
  }

  lemma Appended(log: Log, u: MarketUpdate)
    ensures Extends(log, u, log + [u])
  {
    assert (log + [u])[..|log|] == log;
    LatestSlotsStep(log + [u], u.side, u.price);
  }

  // ---------------------------------------------------------------- the exact condition

  /** Every update's quantity is one of those that may be sent. */
  ghost predicate SentFrom(log: Log, quantities: iset<real>) {
    forall i :: 0 <= i < |log| ==> log[i].quantity in quantities
  }

  ghost predicate SlotsFrom(slots: Slots, quantities: iset<real>) {
    forall i :: 0 <= i < |slots| ==> slots[i] == 0.0 || slots[i] in quantities
  }

  /** No choice of one quantity, or none, per exchange sums to zero, apart from eight zeros. */
  ghost predicate NeverCancels(quantities: iset<real>) {
    forall slots: Slots :: SlotsFrom(slots, quantities) && Sum(slots) == 0.0 ==> AllZero(slots)
  }

  ghost predicate SameStreams(a: Log, b: Log) {
    forall exchange :: StreamOf(a, exchange) == StreamOf(b, exchange)
  }

  ghost predicate Independent(quantities: iset<real>) {
    forall a: Log, b: Log :: SentFrom(a, quantities) && SentFrom(b, quantities) && SameStreams(a, b)
      ==> BookAfter(a) == BookAfter(b)
  }

  lemma {:induction false} LatestIsSent(log: Log, quantities: iset<real>, side: Side, price: real, exchange: Exchange)
    requires SentFrom(log, quantities)
    ensures Latest(log, side, price, exchange) == 0.0 || Latest(log, side, price, exchange) in quantities
  {
    if log != [] {
      LatestIsSent(log[..|log| - 1], quantities, side, price, exchange);
    }
  }

  /** Quantities that never cancel make every run clean. */
  lemma NeverCancelsIsClean(log: Log, quantities: iset<real>)
    requires SentFrom(log, quantities) && NeverCancels(quantities)
    ensures Clean(log)
  {
    forall k | 0 < k <= |log| ensures CleanStep(log[..k]) {
      var u := log[k - 1];
      var slots := LatestSlots(log[..k], u.side, u.price);
      forall i | 0 <= i < |slots| ensures slots[i] == 0.0 || slots[i] in quantities {
        LatestIsSent(log[..k], quantities, u.side, u.price, ExchangeAt(i));
      }
      assert SlotsFrom(slots, quantities);
    }
  }

  // A cancelling choice, sent exchange by exchange, with the first exchange repeating itself first or last.

  function Send(slots: Slots, i: nat): MarketUpdate
    requires i < EXCHANGE_COUNT
  {
    MarketUpdate(1.0, slots[i], "", ASK, ExchangeAt(i))
  }

  /** The non-zero slots from `f` up to `k`, one update each. */
  function Ramp(slots: Slots, f: nat, k: nat): Log
    requires f <= k <= EXCHANGE_COUNT
  {
    if k == f then []
    else if slots[k - 1] == 0.0 then Ramp(slots, f, k - 1)
    else Ramp(slots, f, k - 1) + [Send(slots, k - 1)]
  }

  /** The slots below `k` alone. */
  function Below(slots: Slots, k: nat): (r: Slots)
    requires k <= EXCHANGE_COUNT
    ensures forall i :: 0 <= i < EXCHANGE_COUNT ==> r[i] == if i < k then slots[i] else 0.0
  {
    seq(EXCHANGE_COUNT, i requires 0 <= i < EXCHANGE_COUNT => if i < k then slots[i] else 0.0)
  }

  lemma BelowStep(slots: Slots, k: nat)
    requires 0 < k <= EXCHANGE_COUNT
    ensures Below(slots, k) == Write(Below(slots, k - 1), ExchangeAt(k - 1), slots[k - 1])
    ensures Sum(Below(slots, k)) == Sum(Below(slots, k - 1)) + slots[k - 1]
  {
    IndexOfExchangeAt(k - 1);
    SumOfWrite(Below(slots, k - 1), ExchangeAt(k - 1), slots[k - 1]);
  }

  /** `f` is the first non-zero slot, and `k` the first place after it up to which the slots cancel. */
  ghost predicate FirstCancelling(slots: Slots, f: nat, k: nat) {
    && f < k <= EXCHANGE_COUNT
    && slots[f] != 0.0 && (forall i :: 0 <= i < f ==> slots[i] == 0.0)
    && Sum(Below(slots, k)) == 0.0
    && forall j :: f < j < k ==> Sum(Below(slots, j)) != 0.0
  }

  lemma FindFirstCancelling(slots: Slots) returns (f: nat, k: nat)
    requires Sum(slots) == 0.0 && !AllZero(slots)
    ensures FirstCancelling(slots, f, k)
  {
    f := 0;
    while slots[f] == 0.0
      invariant f < EXCHANGE_COUNT
      invariant forall i :: 0 <= i < f ==> slots[i] == 0.0
      decreases EXCHANGE_COUNT - f
    {
      assert exists i :: f < i < EXCHANGE_COUNT && slots[i] != 0.0;
      f := f + 1;
    }
    assert Below(slots, EXCHANGE_COUNT) == slots;
    k := f + 1;
    while Sum(Below(slots, k)) != 0.0
      invariant f < k <= EXCHANGE_COUNT
      invariant forall j :: f < j < k ==> Sum(Below(slots, j)) != 0.0
      decreases EXCHANGE_COUNT - k
    {
      k := k + 1;
    }
  }

  lemma {:induction false} RampSends(slots: Slots, f: nat, k: nat, quantities: iset<real>)
    requires f <= k <= EXCHANGE_COUNT && SlotsFrom(slots, quantities)
    ensures SentFrom(Ramp(slots, f, k), quantities)
  {
    if k > f {
      RampSends(slots, f, k - 1, quantities);
    }
  }

  /** The first exchange of a ramp sends once. */
  lemma {:induction false} RampStream(slots: Slots, f: nat, k: nat)
    requires f < k <= EXCHANGE_COUNT && slots[f] != 0.0
    ensures StreamOf(Ramp(slots, f, k), ExchangeAt(f)) == [Send(slots, f)]
  {
    if k == f + 1 {
      Appended([], Send(slots, f));
      assert Ramp(slots, f, k) == [] + [Send(slots, f)];
    } else {
      RampStream(slots, f, k - 1);
      IndexOfExchangeAt(f);
      IndexOfExchangeAt(k - 1);
      Appended(Ramp(slots, f, k - 1), Send(slots, k - 1));
    }
  }

  lemma {:induction false} StreamOfLed(u: MarketUpdate, log: Log, exchange: Exchange)
    ensures StreamOf([u] + log, exchange) == StreamOf([u], exchange) + StreamOf(log, exchange)
  {
    if log == [] {
      assert [u] + log == [u];
    } else {
      var front, last := log[..|log| - 1], log[|log| - 1];
      StreamOfLed(u, front, exchange);
      assert ([u] + log)[..|log|] == [u] + front && ([u] + log)[|log|] == last;
      var own := if last.exchange == exchange then [last] else [];
      assert StreamOf(log, exchange) == StreamOf(front, exchange) + own;
      assert StreamOf([u] + log, exchange) == StreamOf([u] + front, exchange) + own;
    }
  }

  /** Until the slots cancel, the ramp's one level holds them; then it is gone. */
  lemma {:induction false} RampLevels(slots: Slots, f: nat, k: nat, j: nat)
    requires FirstCancelling(slots, f, k) && f < j <= k
    ensures LevelsAfter(Ramp(slots, f, j), ASK) == Settled(Level(1.0, Below(slots, j)))
  {
    hide Sum, Upsert, Latest;
    BelowStep(slots, j);
    if j == f + 1 {
      assert Below(slots, f) == ZEROS;
      Appended([], Send(slots, f));
      assert Ramp(slots, f, j) == [] + [Send(slots, f)];
      FirstQuote(Send(slots, f));
    } else {
      RampLevels(slots, f, k, j - 1);
      assert Sum(Below(slots, j - 1)) != 0.0;
      if slots[j - 1] == 0.0 {
        assert Below(slots, j) == Below(slots, j - 1);
      } else {
        Appended(Ramp(slots, f, j - 1), Send(slots, j - 1));
        Requote(ASK, Below(slots, j - 1), Send(slots, j - 1));
      }
    }
  }

  /** Sending the first quantity twice at the start changes nothing. */
  lemma {:induction false} LeadLevels(slots: Slots, f: nat, k: nat, j: nat)
    requires FirstCancelling(slots, f, k) && f < j <= k
    ensures LevelsAfter([Send(slots, f)] + Ramp(slots, f, j), ASK) == LevelsAfter(Ramp(slots, f, j), ASK)
  {
    hide Sum, Upsert, Latest;
    var first := Send(slots, f);
    if j == f + 1 {
      Appended([], first);
      Appended([first], first);
      assert Ramp(slots, f, j) == [] + [first] == [first];
      FirstQuote(first);
      Requote(ASK, Write(ZEROS, first.exchange, first.quantity), first);
      RepeatedWrite(ZEROS, first.exchange, first.quantity);
    } else {
      LeadLevels(slots, f, k, j - 1);
      if slots[j - 1] != 0.0 {
        var before, u := Ramp(slots, f, j - 1), Send(slots, j - 1);
        Appended(before, u);
        Appended([first] + before, u);
        assert [first] + (before + [u]) == ([first] + before) + [u];
      }
    }
  }

  lemma RepeatedWrite(slots: Slots, exchange: Exchange, quantity: real)
    ensures Write(Write(slots, exchange, quantity), exchange, quantity) == Write(slots, exchange, quantity)
  {
  }

  /** A cancelling choice of quantities gives two interleavings of the same streams with different books. */
  lemma CancellingBreaksIndependence(quantities: iset<real>, slots: Slots) returns (a: Log, b: Log)
    requires SlotsFrom(slots, quantities) && Sum(slots) == 0.0 && !AllZero(slots)
    ensures SentFrom(a, quantities) && SentFrom(b, quantities) && SameStreams(a, b)
    ensures BookAfter(a) != BookAfter(b)
  {
    hide Sum, Upsert, Latest, LevelsAfter, StreamOf, Ramp, Below;
    var f, k := FindFirstCancelling(slots);
    var first, ramp := Send(slots, f), Ramp(slots, f, k);
    a, b := ramp + [first], [first] + ramp;
    RampSends(slots, f, k, quantities);
    RotatedStreams(slots, f, k);
    RampLevels(slots, f, k, k);
    LeadLevels(slots, f, k, k);
    Appended(ramp, first);
    FirstQuote(first);
    assert |BookAfter(a).ask| == 1 && |BookAfter(b).ask| == 0;
  }

  lemma RotatedStreams(slots: Slots, f: nat, k: nat)
    requires FirstCancelling(slots, f, k)
    ensures SameStreams(Ramp(slots, f, k) + [Send(slots, f)], [Send(slots, f)] + Ramp(slots, f, k))
  {
    hide Sum, Upsert, Latest, LevelsAfter, Ramp, Below;
    var first, ramp := Send(slots, f), Ramp(slots, f, k);
    RampStream(slots, f, k);
    Appended(ramp, first);
    Appended([], first);
    assert [] + [first] == [first] && StreamOf([], first.exchange) == [];
    forall exchange ensures StreamOf(ramp + [first], exchange) == StreamOf([first] + ramp, exchange) {
      StreamOfLed(first, ramp, exchange);
      assert exchange != first.exchange ==> StreamOf([first], exchange) == [];
    }
  }

  /**
   For quantities from a given set, the book is the same however the exchanges' streams interleave
   if and only if no choice of at most one of them per exchange cancels out.
   */
  lemma IndependenceIsExact(quantities: iset<real>)
    ensures Independent(quantities) <==> NeverCancels(quantities)
  {
    if NeverCancels(quantities) {
      forall a: Log, b: Log | SentFrom(a, quantities) && SentFrom(b, quantities) && SameStreams(a, b)
        ensures BookAfter(a) == BookAfter(b)
      {
        NeverCancelsIsClean(a, quantities);
        NeverCancelsIsClean(b, quantities);
        InterleavingIndependence(a, b);
      }
    } else {
      var slots: Slots :| SlotsFrom(slots, quantities) && Sum(slots) == 0.0 && !AllZero(slots);
      var a, b := CancellingBreaksIndependence(quantities, slots);
    }
  }

  /** Sets without negative quantities are independent; one quantity and its opposite are enough not to be. */
  lemma NegativeQuantitiesDecide(quantities: iset<real>)
    ensures (forall q :: q in quantities ==> q >= 0.0) ==> Independent(quantities)
    ensures (exists q :: q in quantities && q != 0.0 && -q in quantities) ==> !Independent(quantities)
  {
    IndependenceIsExact(quantities);
    if forall q :: q in quantities ==> q >= 0.0 {
      forall slots: Slots | SlotsFrom(slots, quantities) && Sum(slots) == 0.0 ensures AllZero(slots) {
        TotalZeroIffEmpty(slots);
      }
    }
    if q :| q in quantities && q != 0.0 && -q in quantities {
      var slots := Write(Write(ZEROS, BINANCE, q), OKX, -q);
      SumOfZeros(ZEROS);
      SumOfWrite(ZEROS, BINANCE, q);
      SumOfWrite(Write(ZEROS, BINANCE, q), OKX, -q);
      assert slots[Index(BINANCE)] == q;
      assert SlotsFrom(slots, quantities) && Sum(slots) == 0.0 && !AllZero(slots);
    }
  }

  // ---------------------------------------------------------------- the same condition for the other results

  /** What the ramp has written so far, whatever was erased on the way. */
  lemma {:induction false} RampLatest(slots: Slots, f: nat, j: nat)
    requires f <= j <= EXCHANGE_COUNT
    requires forall i :: 0 <= i < f ==> slots[i] == 0.0
    ensures LatestSlots(Ramp(slots, f, j), ASK, 1.0) == Below(slots, j)
  {
    hide Sum, Upsert, Latest, LevelsAfter;
    if j == f {
      LatestSlotsOfNothing(ASK, 1.0);
      assert Below(slots, f) == ZEROS;
    } else {
      RampLatest(slots, f, j - 1);
      BelowStep(slots, j);
      if slots[j - 1] == 0.0 {
        assert Below(slots, j) == Below(slots, j - 1);
      } else {
        Appended(Ramp(slots, f, j - 1), Send(slots, j - 1));
      }
    }
  }

  /** A cancelling choice makes a run whose state has forgotten what was written last. */
  lemma CancellingForgets(quantities: iset<real>, slots: Slots) returns (log: Log)
    requires SlotsFrom(slots, quantities) && Sum(slots) == 0.0 && !AllZero(slots)
    ensures SentFrom(log, quantities) && !HoldsLatest(log)
  {
    hide Sum, Upsert, Latest, Ramp;
    var f, k := FindFirstCancelling(slots);
    log := Ramp(slots, f, k);
    RampSends(slots, f, k, quantities);
    RampLevels(slots, f, k, k);
    RampLatest(slots, f, k);
    assert Below(slots, k)[f] == slots[f];
    assert SlotsAt(LevelsAfter(log, ASK), 1.0) == ZEROS;
  }

  /**
   For quantities from a given set, the state holds the latest quantities after every run
   if and only if no choice of at most one of them per exchange cancels out.
   */
  lemma RefinementForQuantities(quantities: iset<real>)
    ensures (forall log: Log :: SentFrom(log, quantities) ==> HoldsLatest(log)) <==> NeverCancels(quantities)
  {
    if NeverCancels(quantities) {
      forall log: Log | SentFrom(log, quantities) ensures HoldsLatest(log) {
        NeverCancelsIsClean(log, quantities);
        forall side, price ensures SlotsAt(LevelsAfter(log, side), price) == LatestSlots(log, side, price) {
          SlotsAreLatest(log, side, price);
        }
      }
    } else {
      var slots: Slots :| SlotsFrom(slots, quantities) && Sum(slots) == 0.0 && !AllZero(slots);
      var log := CancellingForgets(quantities, slots);
    }
  }

  /** The book lists exactly the non-zero levels of the aggregator that never erases. */
  ghost predicate PruningUnnoticed(log: Log) {
    forall side, quote :: quote in BookAfter(log).On(side) <==> KeptQuote(log, side, quote)
  }

  ghost predicate KeptQuote(log: Log, side: Side, quote: Quote) {
    var kept := KeptAfter(log, side);
    quote.price in kept && quote.quantity == Sum(kept[quote.price]) != 0.0
  }

  /** The first exchange repeating itself last is listed alone, although all the slots together cancel. */
  lemma CancellingIsNoticed(quantities: iset<real>, slots: Slots) returns (log: Log)
    requires SlotsFrom(slots, quantities) && Sum(slots) == 0.0 && !AllZero(slots)
    ensures SentFrom(log, quantities) && !PruningUnnoticed(log)
  {
    hide Sum, Upsert, Latest, Ramp, KeptAfter, Below;
    var f, k := FindFirstCancelling(slots);
    var first, ramp := Send(slots, f), Ramp(slots, f, k);
    log := ramp + [first];
    RampSends(slots, f, k, quantities);
    RampLevels(slots, f, k, k);
    RampLatest(slots, f, k);
    Appended(ramp, first);
    FirstQuote(first);
    IndexOfExchangeAt(f);
    assert Write(Below(slots, k), first.exchange, first.quantity) == Below(slots, k);
    KeptIsLatest(log, ASK, 1.0);
    SumOfZeros(ZEROS);
    var quote := Quote(1.0, first.quantity);
    assert BookAfter(log).ask[0] == quote;
    assert quote in BookAfter(log).On(ASK) && !KeptQuote(log, ASK, quote);
  }

  /** Pruning goes unnoticed after every run of the quantities if and only if they never cancel. */
  lemma PruningForQuantities(quantities: iset<real>)
    ensures (forall log: Log :: SentFrom(log, quantities) ==> PruningUnnoticed(log)) <==> NeverCancels(quantities)
  {
    if NeverCancels(quantities) {
      forall log: Log | SentFrom(log, quantities) ensures PruningUnnoticed(log) {
        NeverCancelsIsClean(log, quantities);
        PruningIsUnobservable(log, ASK);
        PruningIsUnobservable(log, BID);
        forall side, quote ensures quote in BookAfter(log).On(side) <==> KeptQuote(log, side, quote) {
        }
      }
    } else {
      var slots: Slots :| SlotsFrom(slots, quantities) && Sum(slots) == 0.0 && !AllZero(slots);
      var log := CancellingIsNoticed(quantities, slots);
    }
  }

  /** Whatever any exchange has sent, withdrawing it gives the book without that exchange. */
  ghost predicate WithdrawalAlwaysRestores(quantities: iset<real>) {
    forall log: Log, withdrawal: Log, gone: Exchange :: SentFrom(log, quantities) && Withdraws(withdrawal, log, gone)
      ==> BookAfter(log + withdrawal) == BookAfter(Without(log, gone))
  }

  /** Part of a ramp: each exchange writes once, so its level, listed or not, has the sum of what was written. */
  ghost predicate RunningLevel(levels: seq<Level>, sum: real, j: nat) {
    if sum == 0.0 then levels == []
    else
      && |levels| == 1 && levels[0].price == 1.0 && Sum(levels[0].slots) == sum
      && forall i :: j <= i < EXCHANGE_COUNT ==> levels[0].slots[i] == 0.0
  }

  lemma RunningStep(levels: seq<Level>, sum: real, j: nat, u: MarketUpdate)
    requires j < EXCHANGE_COUNT && RunningLevel(levels, sum, j)
    requires u.side == ASK && u.price == 1.0 && u.exchange == ExchangeAt(j) && u.quantity != 0.0
    ensures RunningLevel(Upsert(ASK, levels, u.price, u.exchange, u.quantity), sum + u.quantity, j + 1)
  {
    hide Sum, Upsert;
    IndexOfExchangeAt(j);
    if sum == 0.0 {
      FirstQuote(u);
      WrittenAbove(ZEROS, u, j);
    } else {
      var slots := levels[0].slots;
      assert levels == [Level(u.price, slots)];
      Requote(ASK, slots, u);
      WrittenAbove(slots, u, j);
    }
  }

  lemma WrittenAbove(slots: Slots, u: MarketUpdate, j: nat)
    requires j < EXCHANGE_COUNT && u.exchange == ExchangeAt(j)
    requires forall i :: j <= i < EXCHANGE_COUNT ==> slots[i] == 0.0
    ensures forall i :: j < i < EXCHANGE_COUNT ==> Write(slots, u.exchange, u.quantity)[i] == 0.0
  {
    IndexOfExchangeAt(j);
  }

  lemma {:induction false} RampRuns(slots: Slots, f: nat, j: nat)
    requires f <= j <= EXCHANGE_COUNT
    ensures RunningLevel(LevelsAfter(Ramp(slots, f, j), ASK), Sum(Below(slots, j)) - Sum(Below(slots, f)), j)
  {
    hide Sum, Upsert, Latest, Below;
    if j > f {
      RampRuns(slots, f, j - 1);
      BelowStep(slots, j);
      if slots[j - 1] != 0.0 {
        Appended(Ramp(slots, f, j - 1), Send(slots, j - 1));
        var before := LevelsAfter(Ramp(slots, f, j - 1), ASK);
        RunningStep(before, Sum(Below(slots, j - 1)) - Sum(Below(slots, f)), j - 1, Send(slots, j - 1));
      }
    }
  }

  /** Leaving out the first exchange of a ramp leaves the rest of it. */
  lemma {:induction false} RampWithoutFirst(slots: Slots, f: nat, k: nat)
    requires f < k <= EXCHANGE_COUNT && slots[f] != 0.0
    ensures Without(Ramp(slots, f, k), ExchangeAt(f)) == Ramp(slots, f + 1, k)
    decreases k
  {
    IndexOfExchangeAt(f);
    IndexOfExchangeAt(k - 1);
    if k == f + 1 {
      assert Ramp(slots, f, k) == [] + [Send(slots, f)] == [Send(slots, f)];
      assert Without([], ExchangeAt(f)) == [];
    } else {
      RampWithoutFirst(slots, f, k - 1);
      if slots[k - 1] != 0.0 {
        var before := Ramp(slots, f, k - 1);
        assert (before + [Send(slots, k - 1)])[..|before|] == before;
      }
    }
  }

  lemma {:induction false} RampPrices(slots: Slots, f: nat, k: nat)
    requires f <= k <= EXCHANGE_COUNT
    ensures forall i :: 0 <= i < |Ramp(slots, f, k)| ==>
              Ramp(slots, f, k)[i].side == ASK && Ramp(slots, f, k)[i].price == 1.0
  {
    if k > f {
      RampPrices(slots, f, k - 1);
    }
  }

  /** After the ramp nothing is listed, and a withdrawal cannot bring back what the first exchange had cancelled. */
  lemma CancellingBreaksWithdrawal(quantities: iset<real>, slots: Slots)
    returns (log: Log, withdrawal: Log, gone: Exchange)
    requires SlotsFrom(slots, quantities) && Sum(slots) == 0.0 && !AllZero(slots)
    ensures SentFrom(log, quantities) && Withdraws(withdrawal, log, gone)
    ensures BookAfter(log + withdrawal) != BookAfter(Without(log, gone))
  {
    hide Sum, Upsert, Latest, LevelsAfter, Ramp, Below, Without;
    var f, k := FindFirstCancelling(slots);
    log, gone := Ramp(slots, f, k), ExchangeAt(f);
    var zero := MarketUpdate(1.0, 0.0, "", ASK, gone);
    withdrawal := [zero];
    RampSends(slots, f, k, quantities);
    RampPrices(slots, f, k);
    forall side, price | Writes(log, side, price, gone) ensures Writes(withdrawal, side, price, gone) {
      assert Hits(withdrawal[0], side, price, gone);
    }
    RampLevels(slots, f, k, k);
    Appended(log, zero);
    NothingWithdrawn(zero);
    RampWithoutFirst(slots, f, k);
    RampRuns(slots, f + 1, k);
    BelowStep(slots, f + 1);
    BelowFirst(slots, f);
    assert |BookAfter(log + withdrawal).ask| == 0 && |BookAfter(Without(log, gone)).ask| == 1;
  }

  lemma BelowFirst(slots: Slots, f: nat)
    requires f <= EXCHANGE_COUNT && forall i :: 0 <= i < f ==> slots[i] == 0.0
    ensures Sum(Below(slots, f)) == 0.0
  {
    assert Below(slots, f) == ZEROS;
    SumOfZeros(ZEROS);
  }

  lemma NothingWithdrawn(u: MarketUpdate)
    requires u.quantity == 0.0
    ensures Upsert(u.side, [], u.price, u.exchange, u.quantity) == []
  {
    SumOfZeros(ZEROS);
    SumOfWrite(ZEROS, u.exchange, u.quantity);
    assert Settled(Level(u.price, Write(ZEROS, u.exchange, u.quantity))) == [];
  }

  /** Every withdrawal restores, after every run of the quantities, if and only if they never cancel. */
  lemma WithdrawalForQuantities(quantities: iset<real>)
    ensures WithdrawalAlwaysRestores(quantities) <==> NeverCancels(quantities)
  {
    if NeverCancels(quantities) {
      var sent := quantities + iset{0.0};
      forall slots: Slots | SlotsFrom(slots, sent) && Sum(slots) == 0.0 ensures AllZero(slots) {
        assert SlotsFrom(slots, quantities);
      }
      forall log: Log, withdrawal: Log, gone: Exchange | SentFrom(log, quantities) && Withdraws(withdrawal, log, gone)
        ensures BookAfter(log + withdrawal) == BookAfter(Without(log, gone))
      {
        NeverCancelsIsClean(log + withdrawal, sent);
        var rest := Without(log, gone);
        forall i | 0 <= i < |rest| ensures rest[i].quantity in sent {
          assert rest[i] in log;
        }
        NeverCancelsIsClean(rest, sent);
        WithdrawalRestores(log, withdrawal, gone);
      }
    } else {
      var slots: Slots :| SlotsFrom(slots, quantities) && Sum(slots) == 0.0 && !AllZero(slots);
      var log, withdrawal, gone := CancellingBreaksWithdrawal(quantities, slots);
    }
  }
}
