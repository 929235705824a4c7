/**
 Consolidation is transparent to the analytics: quotes that are listed one by one in price order,
 several at a price and some of them zero, give the same bands as the merged levels.
 */
module Transparency {
  import opened Market
  import opened Reals
  import opened Slots
  import opened Consolidation
  import opened Sweep
  import opened Depth

  /** Neighbours at the same price become one quote, zero quantities disappear. */
  function Merge(quotes: seq<Quote>): seq<Quote> {
    if quotes == [] then [] else Onto(quotes[0], Merge(quotes[1..]))
  }

  function Onto(quote: Quote, merged: seq<Quote>): seq<Quote> {
    if quote.quantity == 0.0 then merged
    else if merged != [] && merged[0].price == quote.price then
      [Quote(quote.price, quote.quantity + merged[0].quantity)] + merged[1..]
    else [quote] + merged
  }

  /** What the quotes offer at one price. */
  function TotalAt(quotes: seq<Quote>, price: real): real {
    if quotes == [] then 0.0
    else (if quotes[0].price == price then quotes[0].quantity else 0.0) + TotalAt(quotes[1..], price)
  }

  ghost predicate Positive(quotes: seq<Quote>) {
    forall i :: 0 <= i < |quotes| ==> quotes[i].price > 0.0 && quotes[i].quantity > 0.0
  }

  lemma {:induction false} MergeIsPositive(quotes: seq<Quote>)
    requires Sane(quotes)
    ensures Positive(Merge(quotes))
    ensures forall i :: 0 <= i < |Merge(quotes)| ==>
              exists j :: 0 <= j < |quotes| && quotes[j].price == Merge(quotes)[i].price
  {
    if quotes != [] {
      var rest := quotes[1..];
      MergeIsPositive(rest);
      forall i | 0 <= i < |Merge(quotes)|
        ensures exists j :: 0 <= j < |quotes| && quotes[j].price == Merge(quotes)[i].price
      {
        if Merge(quotes)[i].price == quotes[0].price {
        } else {
          var k: nat := if |Merge(quotes)| == |Merge(rest)| then i else i - 1;
          assert Merge(quotes)[i] == Merge(rest)[k];
          var j :| 0 <= j < |rest| && rest[j].price == Merge(rest)[k].price;
          assert quotes[j + 1].price == Merge(quotes)[i].price;
        }
      }
    }
  }

  lemma OntoIsSorted(side: Side, quote: Quote, merged: seq<Quote>)
    requires Sorted(side, merged)
    requires forall i :: 0 <= i < |merged| ==> !Before(side, merged[i].price, quote.price)
    ensures Sorted(side, Onto(quote, merged))
  {
    if merged != [] && merged[0].price != quote.price {
      assert forall i :: 0 < i < |merged| ==> Before(side, merged[0].price, merged[i].price);
    }
  }

  lemma {:induction false} MergeIsSorted(side: Side, quotes: seq<Quote>)
    requires Sane(quotes) && Ordered(side, quotes)
    ensures Sorted(side, Merge(quotes))
  {
    hide Onto;
    if quotes != [] {
      var rest, merged := quotes[1..], Merge(quotes[1..]);
      MergeIsSorted(side, rest);
      MergeIsPositive(rest);
      forall i | 0 <= i < |merged| ensures !Before(side, merged[i].price, quotes[0].price) {
        var j :| 0 <= j < |rest| && rest[j].price == merged[i].price;
        assert quotes[j + 1] == rest[j];
      }
      OntoIsSorted(side, quotes[0], merged);
    }
  }

  lemma {:induction false} MergeKeepsTotals(quotes: seq<Quote>, price: real)
    ensures TotalAt(Merge(quotes), price) == TotalAt(quotes, price)
  {
    if quotes != [] {
      MergeKeepsTotals(quotes[1..], price);
      var merged := Merge(quotes[1..]);
      if quotes[0].quantity != 0.0 && !(merged != [] && merged[0].price == quotes[0].price) {
        assert Merge(quotes)[1..] == merged;
      }
    }
  }

  // ---------------------------------------------------------------- the notional sweep

  lemma SplitWorth(p: real, a: real, b: real)
    ensures Worth(Quote(p, a + b)) == Worth(Quote(p, a)) + Worth(Quote(p, b))
  {
    TimesSum(p, a, b);
  }

  /** Two quotes at one price walk like one. */
  lemma WalkSplit(p: real, a: real, b: real, rest: seq<Quote>, n: real)
    requires p > 0.0 && a >= 0.0 && b >= 0.0 && n >= 0.0
    ensures Walk([Quote(p, a + b)] + rest, n) == Walk([Quote(p, a), Quote(p, b)] + rest, n)
  {
    hide Times;
    hide Over;
    var whole, first, second := Quote(p, a + b), Quote(p, a), Quote(p, b);
    SplitWorth(p, a, b);
    TimesSign(p, a);
    TimesSign(p, b);
    assert ([whole] + rest)[1..] == rest;
    assert ([first, second] + rest)[1..] == [second] + rest && ([second] + rest)[1..] == rest;
    if Worth(first) <= n < Worth(whole) {
      OverRemainder(p, a, n);
    }
  }

  lemma OverRemainder(p: real, a: real, n: real)
    requires p > 0.0
    ensures a + Over(n - Times(p, a), p) == Over(n, p)
  {
    hide Times;
    hide Over;
    var x, y := Over(n - Times(p, a), p), Over(n, p);
    TimesOver(p, n - Times(p, a));
    TimesOver(p, n);
    TimesSum(p, a, x);
    TimesOrder(p, a + x, y);
    TimesOrder(p, y, a + x);
  }

  lemma WalkOnto(quote: Quote, merged: seq<Quote>, n: real)
    requires quote.price > 0.0 && quote.quantity >= 0.0 && n >= 0.0
    requires Positive(merged)
    ensures Walk(Onto(quote, merged), n) == Walk([quote] + merged, n)
  {
    hide Times;
    hide Over;
    assert ([quote] + merged)[1..] == merged;
    if quote.quantity == 0.0 {
      TimesZero(quote.price);
      assert Walk(merged, n) == Walk([quote] + merged, n);
    } else if merged != [] && merged[0].price == quote.price {
      assert [quote] + merged == [quote, merged[0]] + merged[1..];
      WalkSplit(quote.price, quote.quantity, merged[0].quantity, merged[1..], n);
    }
  }

  /** Merging equal prices and dropping zeros changes no walk. */
  lemma {:induction false} MergeKeepsWalk(quotes: seq<Quote>, n: real)
    requires Sane(quotes) && n >= 0.0
    ensures Walk(Merge(quotes), n) == Walk(quotes, n)
  {
    hide Times;
    hide Over;
    hide Onto;
    if quotes != [] {
      var merged := Merge(quotes[1..]);
      MergeIsPositive(quotes[1..]);
      WalkOnto(quotes[0], merged, n);
      assert ([quotes[0]] + merged)[1..] == merged;
      if Worth(quotes[0]) <= n {
        MergeKeepsWalk(quotes[1..], n - Worth(quotes[0]));
      }
    }
  }

  // ---------------------------------------------------------------- the price bands

  lemma {:induction false} MergeKeepsInside(side: Side, quotes: seq<Quote>, limit: real)
    ensures Inside(side, Merge(quotes), limit) == Inside(side, quotes, limit)
  {
    if quotes != [] {
      MergeKeepsInside(side, quotes[1..], limit);
      var merged := Merge(quotes[1..]);
      if quotes[0].quantity != 0.0 && !(merged != [] && merged[0].price == quotes[0].price) {
        assert Merge(quotes)[1..] == merged;
      }
    }
  }

  /** Some quote at the first price is not zero. */
  ghost predicate BestIsBacked(quotes: seq<Quote>) {
    quotes == [] || exists i :: 0 <= i < |quotes| && quotes[i].price == quotes[0].price && quotes[i].quantity > 0.0
  }

  lemma {:induction false} TotalAtIsBacked(quotes: seq<Quote>, price: real)
    requires Sane(quotes)
    ensures TotalAt(quotes, price) >= 0.0
    ensures TotalAt(quotes, price) > 0.0
       <==> exists i :: 0 <= i < |quotes| && quotes[i].price == price && quotes[i].quantity > 0.0
  {
    if quotes != [] {
      var rest := quotes[1..];
      TotalAtIsBacked(rest, price);
      if i :| 0 <= i < |rest| && rest[i].price == price && rest[i].quantity > 0.0 {
        assert quotes[i + 1].price == price;
      }
      if i :| 0 < i < |quotes| && quotes[i].price == price && quotes[i].quantity > 0.0 {
        assert rest[i - 1].price == price;
      }
    }
  }

  lemma MergedBest(side: Side, quotes: seq<Quote>)
    requires Sane(quotes) && Ordered(side, quotes) && quotes != []
    ensures BestIsBacked(quotes) <==> Merge(quotes) != [] && Merge(quotes)[0].price == quotes[0].price
  {
    var merged, best := Merge(quotes), quotes[0].price;
    MergeIsSorted(side, quotes);
    MergeIsPositive(quotes);
    MergeKeepsTotals(quotes, best);
    TotalAtIsBacked(quotes, best);
    TotalAtIsBacked(merged, best);
    if i :| 0 <= i < |merged| && merged[i].price == best && merged[i].quantity > 0.0 {
      var j :| 0 <= j < |quotes| && quotes[j].price == merged[0].price;
      assert !Before(side, quotes[j].price, best);
      assert i == 0;
    }
  }

  /**
   Every price band is the same on the merged quotes if and only if the first price is backed by a
   quantity: a zero quote in front would move the best price that the distance is measured from.
   */
  lemma DepthTransparencyIsExact(side: Side, quotes: seq<Quote>)
    requires Sane(quotes) && Ordered(side, quotes)
    ensures (forall bps :: DepthBand(side, Merge(quotes), bps) == DepthBand(side, quotes, bps))
            <==> BestIsBacked(quotes)
  {
    hide Shifted;
    var merged := Merge(quotes);
    if quotes != [] {
      MergedBest(side, quotes);
      MergeIsSorted(side, quotes);
      if BestIsBacked(quotes) {
        forall bps ensures DepthBand(side, merged, bps) == DepthBand(side, quotes, bps) {
          var limit := Shifted(side, quotes[0].price, bps);
          EarlyBreakIsFilter(side, quotes, limit);
          EarlyBreakIsFilter(side, merged, limit);
          MergeKeepsInside(side, quotes, limit);
        }
      } else {
        ShiftedIsMonotone(side, quotes[0].price, 0, 0);
        MergeIsPositive(quotes);
        if merged != [] {
          ShiftedIsMonotone(side, merged[0].price, 0, 0);
        }
        assert DepthBand(side, merged, 0) != DepthBand(side, quotes, 0);
      }
    }
  }

  // ---------------------------------------------------------------- against the book

  lemma {:induction false} TotalAtUnlisted(quotes: seq<Quote>, price: real)
    requires forall i :: 0 <= i < |quotes| ==> quotes[i].price != price
    ensures TotalAt(quotes, price) == 0.0
  {
    if quotes != [] {
      TotalAtUnlisted(quotes[1..], price);
    }
  }

  /** A sorted side with positive quantities is determined by what it offers at each price. */
  lemma {:induction false} QuotesAreDetermined(side: Side, a: seq<Quote>, b: seq<Quote>)
    requires Sorted(side, a) && Sorted(side, b) && Positive(a) && Positive(b)
    requires forall price :: TotalAt(a, price) == TotalAt(b, price)
    ensures a == b
  {
    if a != [] && b != [] {
      SamePlace(side, a, b);
      forall price ensures TotalAt(a[1..], price) == TotalAt(b[1..], price) {
        assert TotalAt(a, price) == TotalAt(b, price);
        if price == a[0].price {
          TotalAtUnlisted(a[1..], price);
          TotalAtUnlisted(b[1..], price);
        }
      }
      TotalAtUnlisted(a[1..], a[0].price);
      TotalAtUnlisted(b[1..], a[0].price);
      assert TotalAt(a, a[0].price) == TotalAt(b, a[0].price);
      QuotesAreDetermined(side, a[1..], b[1..]);
    } else if b == [] {
      NothingOffered(a);
    } else {
      NothingOffered(b);
    }
  }

  lemma NothingOffered(quotes: seq<Quote>)
    requires Positive(quotes)
    requires forall price :: TotalAt(quotes, price) == 0.0
    ensures quotes == []
  {
    if quotes != [] {
      TotalAtIsBacked(quotes, quotes[0].price);
    }
  }

  lemma SamePlace(side: Side, a: seq<Quote>, b: seq<Quote>)
    requires Sorted(side, a) && Sorted(side, b) && Positive(a) && Positive(b)
    requires a != [] && b != []
    requires forall price :: TotalAt(a, price) == TotalAt(b, price)
    ensures a[0].price == b[0].price
  {
    var p, q := a[0].price, b[0].price;
    TotalAtIsBacked(a, p);
    TotalAtIsBacked(b, q);
    TotalAtIsBacked(b, p);
    TotalAtIsBacked(a, q);
    assert TotalAt(a, p) == TotalAt(b, p) && TotalAt(a, q) == TotalAt(b, q);
  }

  lemma {:induction false} TotalAtListed(side: Side, quotes: seq<Quote>, i: nat)
    requires Sorted(side, quotes) && i < |quotes|
    ensures TotalAt(quotes, quotes[i].price) == quotes[i].quantity
  {
    if i == 0 {
      TotalAtUnlisted(quotes[1..], quotes[0].price);
    } else {
      TotalAtListed(side, quotes[1..], i - 1);
    }
  }

  /** Every update has a positive price and no negative quantity. */
  ghost predicate SaneLog(log: Log) {
    forall i :: 0 <= i < |log| ==> log[i].price > 0.0 && log[i].quantity >= 0.0
  }

  /** A listed price was written by some update. */
  lemma ListedPriceWasWritten(log: Log, side: Side, quote: Quote) returns (i: nat)
    requires Clean(log) && quote in BookAfter(log).On(side)
    ensures i < |log| && log[i].price == quote.price
  {
    QuoteIsListed(log, side, quote);
    var slots := LatestSlots(log, side, quote.price);
    SumOfZeros(ZEROS);
    AllZeroIsZeros(slots);
    var k :| 0 <= k < |slots| && slots[k] != 0.0;
    if !Writes(log, side, quote.price, ExchangeAt(k)) {
      LatestUnwritten(log, side, quote.price, ExchangeAt(k));
    }
    i :| 0 <= i < |log| && Hits(log[i], side, quote.price, ExchangeAt(k));
  }

  /** Sane updates make a sane, strictly sorted book without zero quantities. */
  lemma BookIsSane(log: Log, side: Side)
    requires SaneLog(log)
    ensures Positive(BookAfter(log).On(side)) && Sane(BookAfter(log).On(side))
    ensures Sorted(side, BookAfter(log).On(side)) && Ordered(side, BookAfter(log).On(side))
  {
    NonNegativeIsClean(log);
    ListedTotalsArePositive(log, side);
    LastWriterWins(log, side);
    var quotes := BookAfter(log).On(side);
    forall i | 0 <= i < |quotes| ensures quotes[i].price > 0.0 {
      var k := ListedPriceWasWritten(log, side, quotes[i]);
    }
  }

  lemma BookTotals(log: Log, side: Side, price: real)
    requires SaneLog(log)
    ensures TotalAt(BookAfter(log).On(side), price) == LatestTotal(log, side, price)
  {
    NonNegativeIsClean(log);
    LastWriterWins(log, side);
    var quotes := BookAfter(log).On(side);
    var quote := Quote(price, LatestTotal(log, side, price));
    if quote in quotes {
      var i :| 0 <= i < |quotes| && quotes[i] == quote;
      TotalAtListed(side, quotes, i);
    } else {
      forall i | 0 <= i < |quotes| ensures quotes[i].price != price {
        assert quotes[i] in quotes;
      }
      TotalAtUnlisted(quotes, price);
    }
  }

  // ---------------------------------------------------------------- the exchanges' own quotes

  lemma StreamIsSane(log: Log, exchange: Exchange)
    requires SaneLog(log)
    ensures SaneLog(StreamOf(log, exchange))
  {
    var stream := StreamOf(log, exchange);
    forall i | 0 <= i < |stream| ensures stream[i].price > 0.0 && stream[i].quantity >= 0.0 {
      var u := stream[i];
      assert u in log;
    }
  }

  /** The side of the book that one exchange's updates alone build. */
  function OwnSide(log: Log, side: Side, i: nat): seq<Quote>
    requires i < EXCHANGE_COUNT
  {
    BookAfter(StreamOf(log, ExchangeAt(i))).On(side)
  }

  /** The quotes of the first `k` exchanges' own books, one exchange after the other. */
  function OwnQuotes(log: Log, side: Side, k: nat): seq<Quote>
    requires k <= EXCHANGE_COUNT
  {
    if k == 0 then [] else OwnQuotes(log, side, k - 1) + OwnSide(log, side, k - 1)
  }

  function NonZero(quotes: seq<Quote>): seq<Quote> {
    if quotes == [] then []
    else if quotes[0].quantity == 0.0 then NonZero(quotes[1..])
    else [quotes[0]] + NonZero(quotes[1..])
  }

  /**
   The un-merged quotes: everything in the eight exchanges' own books, in price order, in any order
   within a price, with any zero quotes in between.
   */
  ghost predicate ListsQuotes(log: Log, side: Side, quotes: seq<Quote>) {
    && Sane(quotes) && Ordered(side, quotes)
    && multiset(NonZero(quotes)) == multiset(OwnQuotes(log, side, EXCHANGE_COUNT))
  }

  lemma {:induction false} TotalAtAppend(a: seq<Quote>, b: seq<Quote>, price: real)
    ensures TotalAt(a + b, price) == TotalAt(a, price) + TotalAt(b, price)
  {
    if a == [] {
      assert a + b == b;
    } else {
      assert (a + b)[1..] == a[1..] + b;
      TotalAtAppend(a[1..], b, price);
    }
  }

  /** The first element of a list, found in a permutation of it, and what is left of both. */
  lemma Pick<T>(a: seq<T>, b: seq<T>) returns (i: nat)
    requires multiset(a) == multiset(b) && a != []
    ensures i < |b| && b[i] == a[0]
    ensures b == b[..i] + [b[i]] + b[i + 1..]
    ensures multiset(a[1..]) == multiset(b[..i] + b[i + 1..])
  {
    assert a == [a[0]] + a[1..];
    assert a[0] in multiset(b);
    i :| 0 <= i < |b| && b[i] == a[0];
    assert b == b[..i] + [b[i]] + b[i + 1..];
    assert multiset(a) == multiset{a[0]} + multiset(a[1..]);
    assert multiset(b) == multiset{b[i]} + multiset(b[..i] + b[i + 1..]);
    CancelOne(a[0], multiset(a[1..]), multiset(b[..i] + b[i + 1..]));
  }

  lemma CancelOne<T>(x: T, p: multiset<T>, q: multiset<T>)
    requires multiset{x} + p == multiset{x} + q
    ensures p == q
  {
    assert (multiset{x} + p) - multiset{x} == p;
    assert (multiset{x} + q) - multiset{x} == q;
  }

  lemma {:induction false} TotalAtPermuted(a: seq<Quote>, b: seq<Quote>, price: real)
    requires multiset(a) == multiset(b)
    ensures TotalAt(a, price) == TotalAt(b, price)
  {
    if a == [] {
      assert |multiset(b)| == |b|;
    } else {
      var i := Pick(a, b);
      TotalAtPermuted(a[1..], b[..i] + b[i + 1..], price);
      TotalAtAppend(b[..i], b[i + 1..], price);
      TotalAtAppend(b[..i] + [b[i]], b[i + 1..], price);
      TotalAtAppend(b[..i], [b[i]], price);
    }
  }

  lemma {:induction false} NonZeroKeepsTotals(quotes: seq<Quote>, price: real)
    ensures TotalAt(NonZero(quotes), price) == TotalAt(quotes, price)
  {
    if quotes != [] {
      NonZeroKeepsTotals(quotes[1..], price);
      assert quotes[0].quantity != 0.0 ==> NonZero(quotes)[1..] == NonZero(quotes[1..]);
    }
  }

  /** What the first `k` exchanges offer at a price are their slots there. */
  lemma {:induction false} OwnTotals(log: Log, side: Side, price: real, k: nat)
    requires SaneLog(log) && k <= EXCHANGE_COUNT
    ensures TotalAt(OwnQuotes(log, side, k), price) == Sum(LatestSlots(log, side, price)[..k])
  {
    hide LatestSlots, LevelsAfter;
    var slots := LatestSlots(log, side, price);
    if k > 0 {
      var exchange := ExchangeAt(k - 1);
      OwnTotals(log, side, price, k - 1);
      TotalAtAppend(OwnQuotes(log, side, k - 1), OwnSide(log, side, k - 1), price);
      StreamIsSane(log, exchange);
      BookTotals(StreamOf(log, exchange), side, price);
      StreamTotalIsLatest(log, side, price, exchange);
      assert slots[..k][..k - 1] == slots[..k - 1];
    }
  }

  /** The un-merged quotes offer at every price what the aggregator accumulates there. */
  lemma ListTotals(log: Log, side: Side, quotes: seq<Quote>, price: real)
    requires SaneLog(log) && ListsQuotes(log, side, quotes)
    ensures TotalAt(quotes, price) == LatestTotal(log, side, price)
  {
    NonZeroKeepsTotals(quotes, price);
    TotalAtPermuted(NonZero(quotes), OwnQuotes(log, side, EXCHANGE_COUNT), price);
    OwnTotals(log, side, price, EXCHANGE_COUNT);
    assert LatestSlots(log, side, price)[..EXCHANGE_COUNT] == LatestSlots(log, side, price);
  }

  /** Any such list merges into exactly the consolidated side. */
  lemma ListMergesIntoBook(log: Log, side: Side, quotes: seq<Quote>)
    requires SaneLog(log) && ListsQuotes(log, side, quotes)
    ensures Merge(quotes) == BookAfter(log).On(side)
  {
    BookIsSane(log, side);
    MergeIsSorted(side, quotes);
    MergeIsPositive(quotes);
    forall price ensures TotalAt(Merge(quotes), price) == TotalAt(BookAfter(log).On(side), price) {
      MergeKeepsTotals(quotes, price);
      ListTotals(log, side, quotes, price);
      BookTotals(log, side, price);
    }
    QuotesAreDetermined(side, Merge(quotes), BookAfter(log).On(side));
  }

  /**
   Both sweeps give the same on the exchanges' own quotes as on the consolidated levels: the notional
   bands always, the price bands exactly when some quote at the first price is not zero.
   */
  lemma ConsolidationIsTransparent(log: Log, side: Side, quotes: seq<Quote>)
    requires SaneLog(log) && ListsQuotes(log, side, quotes)
    ensures forall n :: n >= 0.0 ==> Band(BookAfter(log).On(side), n) == Band(quotes, n)
    ensures (forall bps :: DepthBand(side, BookAfter(log).On(side), bps) == DepthBand(side, quotes, bps))
            <==> BestIsBacked(quotes)
  {
    ListMergesIntoBook(log, side, quotes);
    DepthTransparencyIsExact(side, quotes);
    forall n | n >= 0.0 ensures Band(BookAfter(log).On(side), n) == Band(quotes, n) {
      MergeKeepsWalk(quotes, n);
    }
  }

  // ---------------------------------------------------------------- such a list exists

  /** A quote put at its place in an ordered list. */
  function Placed(side: Side, quote: Quote, quotes: seq<Quote>): seq<Quote> {
    if quotes == [] || !Before(side, quotes[0].price, quote.price) then [quote] + quotes
    else [quotes[0]] + Placed(side, quote, quotes[1..])
  }

  function InPriceOrder(side: Side, quotes: seq<Quote>): seq<Quote> {
    if quotes == [] then [] else Placed(side, quotes[0], InPriceOrder(side, quotes[1..]))
  }

  lemma {:induction false} PlacedIsOrdered(side: Side, quote: Quote, quotes: seq<Quote>)
    requires Ordered(side, quotes)
    ensures Ordered(side, Placed(side, quote, quotes))
    ensures multiset(Placed(side, quote, quotes)) == multiset(quotes) + multiset{quote}
  {
    if quotes != [] && Before(side, quotes[0].price, quote.price) {
      var rest := Placed(side, quote, quotes[1..]);
      PlacedIsOrdered(side, quote, quotes[1..]);
      assert quotes == [quotes[0]] + quotes[1..];
      forall i | 0 <= i < |rest| ensures !Before(side, rest[i].price, quotes[0].price) {
        assert rest[i] in multiset(rest);
        assert rest[i] in quotes[1..] || rest[i] == quote;
      }
    }
  }

  lemma {:induction false} InPriceOrderSorts(side: Side, quotes: seq<Quote>)
    ensures Ordered(side, InPriceOrder(side, quotes))
    ensures multiset(InPriceOrder(side, quotes)) == multiset(quotes)
  {
    if quotes != [] {
      InPriceOrderSorts(side, quotes[1..]);
      PlacedIsOrdered(side, quotes[0], InPriceOrder(side, quotes[1..]));
      assert quotes == [quotes[0]] + quotes[1..];
    }
  }

  lemma {:induction false} OwnQuotesArePositive(log: Log, side: Side, k: nat)
    requires SaneLog(log) && k <= EXCHANGE_COUNT
    ensures Positive(OwnQuotes(log, side, k))
  {
    hide SaneLog, StreamOf, BookAfter, Sorted, Ordered, Sane;
    if k > 0 {
      OwnQuotesArePositive(log, side, k - 1);
      StreamIsSane(log, ExchangeAt(k - 1));
      BookIsSane(StreamOf(log, ExchangeAt(k - 1)), side);
    }
  }

  lemma {:induction false} NonZeroOfPositive(quotes: seq<Quote>)
    requires Positive(quotes)
    ensures NonZero(quotes) == quotes
  {
    if quotes != [] {
      NonZeroOfPositive(quotes[1..]);
    }
  }

  /** The eight exchanges' own quotes themselves, put in price order. */
  function Unmerged(log: Log, side: Side): seq<Quote> {
    InPriceOrder(side, OwnQuotes(log, side, EXCHANGE_COUNT))
  }

  lemma UnmergedListsQuotes(log: Log, side: Side)
    requires SaneLog(log)
    ensures ListsQuotes(log, side, Unmerged(log, side))
    ensures multiset(Unmerged(log, side)) == multiset(OwnQuotes(log, side, EXCHANGE_COUNT))
    ensures BestIsBacked(Unmerged(log, side))
  {
    var own, quotes := OwnQuotes(log, side, EXCHANGE_COUNT), Unmerged(log, side);
    InPriceOrderSorts(side, own);
    OwnQuotesArePositive(log, side, EXCHANGE_COUNT);
    forall i | 0 <= i < |quotes| ensures quotes[i].price > 0.0 && quotes[i].quantity > 0.0 {
      assert quotes[i] in multiset(quotes);
      assert quotes[i] in own;
    }
    NonZeroOfPositive(quotes);
  }

  /** Every notional band and every price band is the same on the un-merged quotes as on the merged book. */
  lemma UnmergedGivesTheSameBands(log: Log, side: Side)
    requires SaneLog(log)
    ensures forall n :: n >= 0.0 ==> Band(BookAfter(log).On(side), n) == Band(Unmerged(log, side), n)
    ensures forall bps :: DepthBand(side, BookAfter(log).On(side), bps) == DepthBand(side, Unmerged(log, side), bps)
  {
    UnmergedListsQuotes(log, side);
    ConsolidationIsTransparent(log, side, Unmerged(log, side));
  }
}
