/** The consolidated book against each exchange's own book: never a worse average price. */
module BestExecution {
  import opened Market
  import opened Reals
  import opened Slots
  import opened Consolidation
  import opened Sweep
  import opened Transparency

  /** The quote is on offer, at its price and with at least its quantity. */
  ghost predicate Offers(side: seq<Quote>, quote: Quote) {
    exists j :: 0 <= j < |side| && side[j].price == quote.price && side[j].quantity >= quote.quantity
  }

  /** Everything on `small` is on offer in `large` too. */
  ghost predicate Covers(large: seq<Quote>, small: seq<Quote>) {
    forall i :: 0 <= i < |small| ==> Offers(large, small[i])
  }

  lemma CoversTail(side: Side, large: seq<Quote>, small: seq<Quote>)
    requires Sorted(side, large) && Sorted(side, small) && Covers(large, small)
    requires small != []
    ensures large != []
    ensures if large[0].price == small[0].price
            then large[0].quantity >= small[0].quantity && Covers(large[1..], small[1..])
            else Covers(large[1..], small)
  {
    assert Offers(large, small[0]);
    var same := large[0].price == small[0].price;
    forall i | (if same then 1 else 0) <= i < |small| ensures Offers(large[1..], small[i]) {
      assert Offers(large, small[i]);
      var j :| 0 <= j < |large| && large[j].price == small[i].price && large[j].quantity >= small[i].quantity;
      var j0 :| 0 <= j0 < |large| && large[j0].price == small[0].price;
      assert j > 0 && large[1..][j - 1] == large[j];
    }
  }

  /** A fill of the smaller side can be carried out on the larger one, unit for unit and price for price. */
  lemma {:induction false} Embed(side: Side, large: seq<Quote>, small: seq<Quote>, ys: seq<real>)
    returns (xs: seq<real>)
    requires Sorted(side, large) && Sorted(side, small) && Sane(large)
    requires Covers(large, small) && IsFill(small, ys)
    ensures IsFill(large, xs)
    ensures Total(xs) == Total(ys)
    ensures Cost(large, xs) == Cost(small, ys)
  {
    hide Times;
    hide Sorted;
    hide Covers;
    if small == [] {
      xs := Nothing(|large|);
      NothingCostsNothing(large);
    } else {
      CoversTail(side, large, small);
      SortedTail(side, large);
      if large[0].price == small[0].price {
        SortedTail(side, small);
        FillTail(small, ys);
        xs := Embed(side, large[1..], small[1..], ys[1..]);
        FillCons(large, ys[0], xs);
        xs := [ys[0]] + xs;
      } else {
        xs := Embed(side, large[1..], small, ys);
        TimesZero(large[0].price);
        FillCons(large, 0.0, xs);
        xs := [0.0] + xs;
      }
    }
  }

  lemma SortedTail(side: Side, quotes: seq<Quote>)
    requires Sorted(side, quotes) && quotes != []
    ensures Sorted(side, quotes[1..])
  {
  }

  lemma {:induction false} WholeFill(quotes: seq<Quote>) returns (xs: seq<real>)
    requires Sane(quotes)
    ensures IsFill(quotes, xs) && Cost(quotes, xs) == Notional(quotes)
  {
    hide Times;
    if quotes == [] {
      xs := [];
    } else {
      xs := WholeFill(quotes[1..]);
      FillCons(quotes, quotes[0].quantity, xs);
      xs := [quotes[0].quantity] + xs;
    }
  }

  /** Where `theirs` has a band for `n`, so has `ours`, and its average price is no worse. */
  ghost predicate BandIsNoWorse(side: Side, ours: seq<Quote>, theirs: seq<Quote>, n: real) {
    var own, other := Band(ours, n), Band(theirs, n);
    other.Some? ==>
      && own.Some? && own.value.Finite? && other.value.Finite?
      && NoWorsePrice(side, own.value.quote.price, other.value.quote.price)
  }

  /** A side that covers another has every band that the other has, at an average price no worse. */
  lemma CoveringIsNoWorse(side: Side, large: seq<Quote>, small: seq<Quote>, n: real)
    requires Sorted(side, large) && Sorted(side, small) && Sane(large) && Sane(small)
    requires Covers(large, small)
    requires n > 0.0
    ensures BandIsNoWorse(side, large, small, n)
  {
    hide Times;
    hide Over;
    hide Covers;
    BandIsExact(small, n);
    BandIsExact(large, n);
    if Band(small, n).Some? {
      var whole := WholeFill(small);
      var all := Embed(side, large, small, whole);
      CostWithinNotional(large, all);
      GreedyFillSpends(small, n);
      var xs := Embed(side, large, small, GreedyFill(small, n));
      GreedyIsBest(side, large, n, xs);
      QuantityDecidesPrice(side, Band(large, n).value.quote, Band(small, n).value.quote);
    }
  }

  /** An exchange's own total at a price is part of the consolidated one. */
  lemma StreamTotal(log: Log, side: Side, price: real, exchange: Exchange)
    requires SaneLog(log)
    ensures LatestTotal(StreamOf(log, exchange), side, price) <= LatestTotal(log, side, price)
  {
    var slots := LatestSlots(log, side, price);
    StreamTotalIsLatest(log, side, price, exchange);
    LatestSlotsNonNegative(log, side, price);
    SumOfWrite(slots, exchange, 0.0);
    TotalZeroIffEmpty(Write(slots, exchange, 0.0));
    IndexOfExchangeAt(Index(exchange));
    assert slots[Index(exchange)] == Latest(log, side, price, exchange);
  }

  lemma BookCoversExchange(log: Log, side: Side, exchange: Exchange)
    requires SaneLog(log)
    ensures Covers(BookAfter(log).On(side), BookAfter(StreamOf(log, exchange)).On(side))
  {
    var large, small := BookAfter(log).On(side), BookAfter(StreamOf(log, exchange)).On(side);
    StreamIsSane(log, exchange);
    NonNegativeIsClean(log);
    NonNegativeIsClean(StreamOf(log, exchange));
    BookIsSane(StreamOf(log, exchange), side);
    forall i | 0 <= i < |small| ensures Offers(large, small[i]) {
      var price := small[i].price;
      assert small[i] in small;
      QuoteIsListed(StreamOf(log, exchange), side, small[i]);
      StreamTotal(log, side, price, exchange);
      var quote := Quote(price, LatestTotal(log, side, price));
      QuoteIsListed(log, side, quote);
      assert quote in large;
    }
  }

  /**
   Best execution. Whatever the exchanges have sent, when the book built from one exchange's updates
   alone has a band for `n`, so has the consolidated book, and its average price is no worse: no
   higher for a buyer, no lower for a seller.
   */
  lemma ConsolidatedIsNoWorse(log: Log, side: Side, exchange: Exchange, n: real)
    requires SaneLog(log) && n > 0.0
    ensures BandIsNoWorse(side, BookAfter(log).On(side), BookAfter(StreamOf(log, exchange)).On(side), n)
  {
    StreamIsSane(log, exchange);
    BookIsSane(log, side);
    BookIsSane(StreamOf(log, exchange), side);
    BookCoversExchange(log, side, exchange);
    CoveringIsNoWorse(side, BookAfter(log).On(side), BookAfter(StreamOf(log, exchange)).On(side), n);
  }

  // ---------------------------------------------------------------- against any routing

  lemma {:induction false} FillAppend(p: seq<Quote>, xs: seq<real>, q: seq<Quote>, ys: seq<real>)
    requires IsFill(p, xs) && IsFill(q, ys)
    ensures IsFill(p + q, xs + ys)
    ensures Total(xs + ys) == Total(xs) + Total(ys)
    ensures Cost(p + q, xs + ys) == Cost(p, xs) + Cost(q, ys)
  {
    hide Times;
    if p == [] {
      assert p + q == q && xs + ys == ys;
    } else {
      FillTail(p, xs);
      FillAppend(p[1..], xs[1..], q, ys);
      assert (p + q)[1..] == p[1..] + q && (xs + ys)[1..] == xs[1..] + ys;
    }
  }

  /** A fill can be carried over to the same quotes in another order. */
  lemma {:induction false} FillPermuted(a: seq<Quote>, b: seq<Quote>, xs: seq<real>) returns (ys: seq<real>)
    requires multiset(a) == multiset(b) && IsFill(a, xs)
    ensures IsFill(b, ys) && Total(ys) == Total(xs) && Cost(b, ys) == Cost(a, xs)
  {
    hide Times;
    if a == [] {
      assert |multiset(b)| == |b|;
      ys := [];
    } else {
      var i := Pick(a, b);
      FillTail(a, xs);
      var rest := FillPermuted(a[1..], b[..i] + b[i + 1..], xs[1..]);
      ys := InsertTake(b, i, xs[0], rest);
    }
  }

  lemma InsertTake(b: seq<Quote>, i: nat, x: real, rest: seq<real>) returns (ys: seq<real>)
    requires i < |b| && 0.0 <= x <= b[i].quantity
    requires IsFill(b[..i] + b[i + 1..], rest)
    ensures IsFill(b, ys) && Total(ys) == x + Total(rest)
    ensures Cost(b, ys) == Times(b[i].price, x) + Cost(b[..i] + b[i + 1..], rest)
  {
    hide Times;
    var front, back := rest[..i], rest[i..];
    assert rest == front + back;
    assert IsFill(b[..i], front) by {
      assert forall k :: 0 <= k < i ==> (b[..i] + b[i + 1..])[k] == b[..i][k];
    }
    assert IsFill(b[i + 1..], back) by {
      forall k | 0 <= k < |back| ensures 0.0 <= back[k] <= b[i + 1..][k].quantity {
        assert (b[..i] + b[i + 1..])[i + k] == b[i + 1..][k];
      }
    }
    FillAppend(b[..i], front, b[i + 1..], back);
    assert b[i..][0] == b[i] && b[i..][1..] == b[i + 1..] && b[..i] + b[i..] == b;
    FillCons(b[i..], x, back);
    FillAppend(b[..i], front, b[i..], [x] + back);
    ys := front + ([x] + back);
  }

  /** Orders sent to the first `k` exchanges, each a fill of that exchange's own book. */
  ghost predicate Routes(log: Log, side: Side, fills: seq<seq<real>>, k: nat)
    requires k <= EXCHANGE_COUNT
  {
    && |fills| == EXCHANGE_COUNT
    && forall i :: 0 <= i < k ==> IsFill(OwnSide(log, side, i), fills[i])
  }

  function RoutedTotal(fills: seq<seq<real>>, k: nat): real
    requires k <= |fills|
  {
    if k == 0 then 0.0 else RoutedTotal(fills, k - 1) + Total(fills[k - 1])
  }

  ghost function RoutedCost(log: Log, side: Side, fills: seq<seq<real>>, k: nat): real
    requires k <= EXCHANGE_COUNT && Routes(log, side, fills, k)
  {
    if k == 0 then 0.0
    else RoutedCost(log, side, fills, k - 1) + Cost(OwnSide(log, side, k - 1), fills[k - 1])
  }

  lemma NothingTaken() returns (xs: seq<real>)
    ensures IsFill([], xs) && Total(xs) == 0.0 && Cost([], xs) == 0.0
  {
    xs := [];
  }

  /** A routing is one fill of all the exchanges' quotes together. */
  lemma {:induction false} RoutingIsFill(log: Log, side: Side, fills: seq<seq<real>>, k: nat) returns (xs: seq<real>)
    requires k <= EXCHANGE_COUNT && Routes(log, side, fills, k)
    ensures IsFill(OwnQuotes(log, side, k), xs)
    ensures Total(xs) == RoutedTotal(fills, k)
    ensures Cost(OwnQuotes(log, side, k), xs) == RoutedCost(log, side, fills, k)
  {
    hide Times, OwnSide, Total, Cost;
    if k == 0 {
      xs := NothingTaken();
    } else {
      xs := RoutingIsFill(log, side, fills, k - 1);
      FillAppend(OwnQuotes(log, side, k - 1), xs, OwnSide(log, side, k - 1), fills[k - 1]);
      xs := xs + fills[k - 1];
    }
  }

  /**
   However orders are routed to the eight exchanges' own books, within the notional when buying or
   reaching it when selling, they buy no more and sell no less than the consolidated band.
   */
  lemma RoutingIsNoBetter(log: Log, side: Side, fills: seq<seq<real>>, n: real)
    requires SaneLog(log) && n > 0.0
    requires Routes(log, side, fills, EXCHANGE_COUNT)
    requires AsGood(side, n, RoutedCost(log, side, fills, EXCHANGE_COUNT))
    ensures var band := Band(BookAfter(log).On(side), n);
            && (RoutedCost(log, side, fills, EXCHANGE_COUNT) >= n ==> band.Some?)
            && (band.Some? ==>
                  band.value.Finite? && AsGood(side, band.value.quote.quantity, RoutedTotal(fills, EXCHANGE_COUNT)))
  {
    hide Times, Over, OwnSide, OwnQuotes, BookAfter;
    var quotes := Unmerged(log, side);
    UnmergedListsQuotes(log, side);
    ConsolidationIsTransparent(log, side, quotes);
    var xs := RoutingIsFill(log, side, fills, EXCHANGE_COUNT);
    var ys := FillPermuted(OwnQuotes(log, side, EXCHANGE_COUNT), quotes, xs);
    CostWithinNotional(quotes, ys);
    BandIsExact(quotes, n);
    GreedyIsBest(side, quotes, n, ys);
  }

  /** The quantity of one exchange's own band, nothing when nothing is asked of it. */
  function PartQuantity(quotes: seq<Quote>, part: real): real {
    match Band(quotes, part)
    case Some(Finite(quote)) => quote.quantity
    case _ => 0.0
  }

  function SplitQuantity(log: Log, side: Side, parts: seq<real>, k: nat): real
    requires k <= EXCHANGE_COUNT && |parts| == EXCHANGE_COUNT
  {
    if k == 0 then 0.0
    else SplitQuantity(log, side, parts, k - 1) + PartQuantity(OwnSide(log, side, k - 1), parts[k - 1])
  }

  /** A split of a notional over the exchanges of which every exchange can trade its part. */
  ghost predicate Splits(log: Log, side: Side, parts: seq<real>, n: real) {
    && |parts| == EXCHANGE_COUNT && Sum(parts) == n
    && forall i :: 0 <= i < EXCHANGE_COUNT ==> parts[i] >= 0.0 && Band(OwnSide(log, side, i), parts[i]).Some?
  }

  /** The band of `quotes` exists and is as good in quantity and in average price as all the parts together. */
  ghost predicate BandBeatsSplit(quotes: seq<Quote>, log: Log, side: Side, parts: seq<real>, n: real)
    requires |parts| == EXCHANGE_COUNT
  {
    var band, quantity := Band(quotes, n), SplitQuantity(log, side, parts, EXCHANGE_COUNT);
    && band.Some? && band.value.Finite? && quantity > 0.0
    && AsGood(side, band.value.quote.quantity, quantity)
    && NoWorsePrice(side, band.value.quote.price, Over(n, quantity))
  }

  lemma PartIsGreedy(quotes: seq<Quote>, part: real)
    requires Sane(quotes) && part >= 0.0 && Band(quotes, part).Some?
    ensures IsFill(quotes, GreedyFill(quotes, part))
    ensures Total(GreedyFill(quotes, part)) == PartQuantity(quotes, part)
    ensures Cost(quotes, GreedyFill(quotes, part)) == part
  {
    hide Times, Over;
    GreedyFillSpends(quotes, part);
    NotionalNonNegative(quotes);
    if part > 0.0 {
      BandIsExact(quotes, part);
    } else {
      GreedyOfNothing(quotes);
      DivisionByZeroIsExact(quotes, part);
    }
  }

  /** The bands of the parts are a routing. */
  lemma {:induction false} SplitRoutes(log: Log, side: Side, parts: seq<real>, n: real, k: nat)
    returns (fills: seq<seq<real>>)
    requires SaneLog(log) && Splits(log, side, parts, n) && k <= EXCHANGE_COUNT
    ensures Routes(log, side, fills, k)
    ensures RoutedTotal(fills, k) == SplitQuantity(log, side, parts, k)
    ensures RoutedCost(log, side, fills, k) == Sum(parts[..k])
  {
    hide Times, Over, OwnSide, Band, PartQuantity;
    if k == 0 {
      fills := seq(EXCHANGE_COUNT, _ => []);
    } else {
      var before := SplitRoutes(log, side, parts, n, k - 1);
      OwnSideIsSane(log, side, k - 1);
      PartIsGreedy(OwnSide(log, side, k - 1), parts[k - 1]);
      fills := before[k - 1 := GreedyFill(OwnSide(log, side, k - 1), parts[k - 1])];
      RoutedElsewhere(log, side, before, fills, k - 1);
      assert parts[..k][..k - 1] == parts[..k - 1];
    }
  }

  lemma OwnSideIsSane(log: Log, side: Side, i: nat)
    requires SaneLog(log) && i < EXCHANGE_COUNT
    ensures Sane(OwnSide(log, side, i)) && Ordered(side, OwnSide(log, side, i))
  {
    StreamIsSane(log, ExchangeAt(i));
    BookIsSane(StreamOf(log, ExchangeAt(i)), side);
  }

  lemma {:induction false} RoutedElsewhere(log: Log, side: Side, a: seq<seq<real>>, b: seq<seq<real>>, k: nat)
    requires k <= EXCHANGE_COUNT && Routes(log, side, a, k) && Routes(log, side, b, k)
    requires forall i :: 0 <= i < k ==> a[i] == b[i]
    ensures RoutedTotal(a, k) == RoutedTotal(b, k) && RoutedCost(log, side, a, k) == RoutedCost(log, side, b, k)
  {
    hide IsFill, Total, Cost, OwnSide;
    if k > 0 {
      RoutedElsewhere(log, side, a, b, k - 1);
    }
  }

  /**
   No way of splitting the notional over the eight exchanges' own books beats the consolidated band:
   it exists, its quantity is as good as that of all the parts together, and so is its average price.
   */
  lemma SplitIsNoBetter(log: Log, side: Side, parts: seq<real>, n: real)
    requires SaneLog(log) && n > 0.0 && Splits(log, side, parts, n)
    ensures BandBeatsSplit(BookAfter(log).On(side), log, side, parts, n)
  {
    hide Times, Over, OwnSide, OwnQuotes, BookAfter, PartQuantity;
    var fills := SplitRoutes(log, side, parts, n, EXCHANGE_COUNT);
    assert parts[..EXCHANGE_COUNT] == parts;
    RoutingIsNoBetter(log, side, fills, n);
    BookIsSane(log, side);
    BandIsExact(BookAfter(log).On(side), n);
    RoutedIsPositive(log, side, fills, n);
    var quantity := SplitQuantity(log, side, parts, EXCHANGE_COUNT);
    TimesOver(quantity, n);
    TimesCommutes(quantity, Over(n, quantity));
    QuantityDecidesPrice(side, Band(BookAfter(log).On(side), n).value.quote, Quote(Over(n, quantity), quantity));
  }

  lemma RoutedIsPositive(log: Log, side: Side, fills: seq<seq<real>>, n: real)
    requires SaneLog(log) && n > 0.0 && Routes(log, side, fills, EXCHANGE_COUNT)
    requires RoutedCost(log, side, fills, EXCHANGE_COUNT) == n
    ensures RoutedTotal(fills, EXCHANGE_COUNT) > 0.0
  {
    var xs := RoutingIsFill(log, side, fills, EXCHANGE_COUNT);
    OwnQuotesArePositive(log, side, EXCHANGE_COUNT);
    PositiveCostPositiveTotal(OwnQuotes(log, side, EXCHANGE_COUNT), xs);
  }

  // ---------------------------------------------------------------- the best routing

  /** A fill of the exchanges' quotes together is a routing. */
  lemma {:induction false} FillIsRouting(log: Log, side: Side, xs: seq<real>, k: nat) returns (fills: seq<seq<real>>)
    requires k <= EXCHANGE_COUNT && IsFill(OwnQuotes(log, side, k), xs)
    ensures Routes(log, side, fills, k)
    ensures RoutedTotal(fills, k) == Total(xs)
    ensures RoutedCost(log, side, fills, k) == Cost(OwnQuotes(log, side, k), xs)
    decreases k
  {
    hide Times, OwnSide;
    if k == 0 {
      fills := seq(EXCHANGE_COUNT, _ => []);
    } else {
      var others, own := OwnQuotes(log, side, k - 1), OwnSide(log, side, k - 1);
      FillSplit(others, own, xs);
      FillAppend(others, xs[..|others|], own, xs[|others|..]);
      assert xs == xs[..|others|] + xs[|others|..];
      var before := FillIsRouting(log, side, xs[..|others|], k - 1);
      fills := before[k - 1 := xs[|others|..]];
      RoutedElsewhere(log, side, before, fills, k - 1);
    }
  }

  lemma FillSplit(p: seq<Quote>, q: seq<Quote>, xs: seq<real>)
    requires IsFill(p + q, xs)
    ensures IsFill(p, xs[..|p|]) && IsFill(q, xs[|p|..])
  {
    forall i | 0 <= i < |p| ensures 0.0 <= xs[..|p|][i] <= p[i].quantity {
      assert (p + q)[i] == p[i];
    }
    forall i | 0 <= i < |q| ensures 0.0 <= xs[|p|..][i] <= q[i].quantity {
      assert (p + q)[|p| + i] == q[i];
    }
  }

  /**
   The consolidated band is not only a bound: some routing of orders to the eight exchanges' own
   books costs exactly the notional and trades exactly the band's quantity.
   */
  lemma RoutingIsAttained(log: Log, side: Side, n: real) returns (fills: seq<seq<real>>)
    requires SaneLog(log) && n > 0.0 && Band(BookAfter(log).On(side), n).Some?
    ensures Routes(log, side, fills, EXCHANGE_COUNT)
    ensures RoutedCost(log, side, fills, EXCHANGE_COUNT) == n
    ensures Band(BookAfter(log).On(side), n).value.Finite?
    ensures RoutedTotal(fills, EXCHANGE_COUNT) == Band(BookAfter(log).On(side), n).value.quote.quantity
  {
    hide Times, Over, OwnSide, OwnQuotes, BookAfter;
    var quotes := Unmerged(log, side);
    UnmergedListsQuotes(log, side);
    ConsolidationIsTransparent(log, side, quotes);
    BandIsExact(quotes, n);
    GreedyFillSpends(quotes, n);
    var xs := FillPermuted(quotes, OwnQuotes(log, side, EXCHANGE_COUNT), GreedyFill(quotes, n));
    fills := FillIsRouting(log, side, xs, EXCHANGE_COUNT);
  }

  /** The exchanges' own bands for what a routing pays them do at least as well as the routing. */
  lemma {:induction false} SplitOfRouting(log: Log, side: Side, fills: seq<seq<real>>, k: nat)
    returns (parts: seq<real>)
    requires SaneLog(log) && k <= EXCHANGE_COUNT && Routes(log, side, fills, k)
    ensures |parts| == EXCHANGE_COUNT && Sum(parts[..k]) == RoutedCost(log, side, fills, k)
    ensures forall i :: 0 <= i < k ==> parts[i] >= 0.0 && Band(OwnSide(log, side, i), parts[i]).Some?
    ensures AsGood(side, SplitQuantity(log, side, parts, k), RoutedTotal(fills, k))
  {
    hide Times, Over, OwnSide, Band, PartQuantity;
    if k == 0 {
      parts := ZEROS;
    } else {
      var own, fill := OwnSide(log, side, k - 1), fills[k - 1];
      var before := SplitOfRouting(log, side, fills, k - 1);
      OwnSideIsSane(log, side, k - 1);
      PartDoesAsWell(side, own, fill);
      parts := before[k - 1 := Cost(own, fill)];
      SplitElsewhere(log, side, before, parts, k - 1);
      assert parts[..k - 1] == before[..k - 1] && parts[..k][..k - 1] == parts[..k - 1];
    }
  }

  lemma PartDoesAsWell(side: Side, quotes: seq<Quote>, xs: seq<real>)
    requires Sane(quotes) && Ordered(side, quotes) && IsFill(quotes, xs)
    ensures Cost(quotes, xs) >= 0.0 && Band(quotes, Cost(quotes, xs)).Some?
    ensures AsGood(side, PartQuantity(quotes, Cost(quotes, xs)), Total(xs))
  {
    hide Times, Over;
    var part := Cost(quotes, xs);
    PositiveCostPositiveTotal(quotes, xs);
    CostWithinNotional(quotes, xs);
    WalkIsGreedy(quotes, part);
    PartIsGreedy(quotes, part);
    GreedyFillSpends(quotes, part);
    GreedyIsBest(side, quotes, part, xs);
  }

  lemma {:induction false} SplitElsewhere(log: Log, side: Side, a: seq<real>, b: seq<real>, k: nat)
    requires k <= EXCHANGE_COUNT == |a| == |b|
    requires forall i :: 0 <= i < k ==> a[i] == b[i]
    ensures SplitQuantity(log, side, a, k) == SplitQuantity(log, side, b, k)
  {
    if k > 0 {
      SplitElsewhere(log, side, a, b, k - 1);
    }
  }

  /** Some split of the notional into the exchanges' own bands trades exactly the consolidated band's quantity. */
  lemma SplitIsAttained(log: Log, side: Side, n: real) returns (parts: seq<real>)
    requires SaneLog(log) && n > 0.0 && Band(BookAfter(log).On(side), n).Some?
    ensures Splits(log, side, parts, n)
    ensures Band(BookAfter(log).On(side), n).value.Finite?
    ensures SplitQuantity(log, side, parts, EXCHANGE_COUNT) == Band(BookAfter(log).On(side), n).value.quote.quantity
  {
    hide Times, Over, OwnSide, BookAfter, Band, SplitQuantity;
    var fills := RoutingIsAttained(log, side, n);
    parts := SplitOfRouting(log, side, fills, EXCHANGE_COUNT);
    assert parts[..EXCHANGE_COUNT] == parts;
    SplitIsNoBetter(log, side, parts, n);
  }
}
