/**
 The greedy walk along one side that buys or sells a given notional, stopping part-way through a
 level, and what makes its result the right one.
 */
module Sweep {
  import opened Market
  import opened Reals

  /** One row of a result: a quote, or the outcome of dividing by zero (an infinity or a NaN). */
  datatype Row = Finite(quote: Quote) | NonFinite

  /** What has been accumulated when the walk ends, or a division by a zero price on the way. */
  datatype Swept = Swept(notional: real, quantity: real) | Diverged

  /** The notional of one quote. */
  function Worth(quote: Quote): real {
    Times(quote.price, quote.quantity)
  }

  /** Whole levels while they fit, then the missing part of the first one that does not. */
  function Walk(quotes: seq<Quote>, n: real): Swept {
    if quotes == [] then Swept(0.0, 0.0)
    else if Worth(quotes[0]) <= n then
      match Walk(quotes[1..], n - Worth(quotes[0]))
      case Swept(c, x) => Swept(Worth(quotes[0]) + c, quotes[0].quantity + x)
      case Diverged => Diverged
    else if quotes[0].price == 0.0 then Diverged
    else Swept(n, Over(n, quotes[0].price))
  }

  /** The band for notional `n`: none when the side is too thin, otherwise average price and quantity. */
  function Band(quotes: seq<Quote>, n: real): Option<Row> {
    match Walk(quotes, n)
    case Diverged => Some(NonFinite)
    case Swept(c, x) =>
      if c < n then None
      else if x == 0.0 then Some(NonFinite)
      else Some(Finite(Quote(Over(c, x), x)))
  }

  // ---------------------------------------------------------------- fills

  /** The notional of a whole side. */
  function Notional(quotes: seq<Quote>): real {
    if quotes == [] then 0.0 else Worth(quotes[0]) + Notional(quotes[1..])
  }

  function Total(xs: seq<real>): real {
    if xs == [] then 0.0 else xs[0] + Total(xs[1..])
  }

  /** What a fill costs at the side's prices. */
  function Cost(quotes: seq<Quote>, xs: seq<real>): real
    requires |xs| == |quotes|
  {
    if quotes == [] then 0.0 else Times(quotes[0].price, xs[0]) + Cost(quotes[1..], xs[1..])
  }

  /** A fill takes at most what each level offers. */
  ghost predicate IsFill(quotes: seq<Quote>, xs: seq<real>) {
    && |xs| == |quotes|
    && forall i :: 0 <= i < |xs| ==> 0.0 <= xs[i] <= quotes[i].quantity
  }

  function Nothing(k: nat): (xs: seq<real>)
    ensures |xs| == k && forall i :: 0 <= i < k ==> xs[i] == 0.0
  {
    seq(k, _ => 0.0)
  }

  /** The fill that the walk performs, level by level. */
  ghost function GreedyFill(quotes: seq<Quote>, n: real): (xs: seq<real>)
    requires Sane(quotes)
    ensures |xs| == |quotes|
  {
    if quotes == [] then []
    else if Worth(quotes[0]) <= n then [quotes[0].quantity] + GreedyFill(quotes[1..], n - Worth(quotes[0]))
    else [Over(n, quotes[0].price)] + Nothing(|quotes| - 1)
  }

  /** The quantity of the greedy fill. */
  ghost function Greedy(quotes: seq<Quote>, n: real): real
    requires Sane(quotes)
  {
    if quotes == [] then 0.0
    else if Worth(quotes[0]) <= n then quotes[0].quantity + Greedy(quotes[1..], n - Worth(quotes[0]))
    else Over(n, quotes[0].price)
  }

  lemma {:induction false} NothingCostsNothing(quotes: seq<Quote>)
    requires Sane(quotes)
    ensures IsFill(quotes, Nothing(|quotes|))
    ensures Cost(quotes, Nothing(|quotes|)) == 0.0
    ensures Total(Nothing(|quotes|)) == 0.0
  {
    hide Times;
    if quotes != [] {
      assert Nothing(|quotes|)[1..] == Nothing(|quotes| - 1);
      TimesZero(quotes[0].price);
      NothingCostsNothing(quotes[1..]);
    }
  }

  lemma WorthNonNegative(quotes: seq<Quote>)
    requires Sane(quotes) && quotes != []
    ensures Worth(quotes[0]) >= 0.0
  {
    TimesSign(quotes[0].price, quotes[0].quantity);
  }

  lemma {:induction false} NotionalNonNegative(quotes: seq<Quote>)
    requires Sane(quotes)
    ensures Notional(quotes) >= 0.0
  {
    hide Times;
    if quotes != [] {
      WorthNonNegative(quotes);
      NotionalNonNegative(quotes[1..]);
    }
  }

  /** A fill of the tail and a take from the first level make a fill of the side. */
  lemma FillCons(quotes: seq<Quote>, x: real, ys: seq<real>)
    requires quotes != [] && IsFill(quotes[1..], ys)
    requires 0.0 <= x <= quotes[0].quantity
    ensures IsFill(quotes, [x] + ys)
    ensures Total([x] + ys) == x + Total(ys)
    ensures Cost(quotes, [x] + ys) == Times(quotes[0].price, x) + Cost(quotes[1..], ys)
  {
    hide Times;
    assert ([x] + ys)[1..] == ys;
    forall i | 0 <= i < |quotes| ensures 0.0 <= ([x] + ys)[i] <= quotes[i].quantity {
      if i > 0 {
        assert ([x] + ys)[i] == ys[i - 1] && quotes[i] == quotes[1..][i - 1];
      }
    }
  }

  lemma FillTail(quotes: seq<Quote>, xs: seq<real>)
    requires quotes != [] && IsFill(quotes, xs)
    ensures IsFill(quotes[1..], xs[1..])
  {
  }

  /** For `0 <= n < p * q`, the quantity `n / p` fits in the level and costs exactly `n`. */
  lemma PartialLevel(quote: Quote, n: real)
    requires quote.price > 0.0 && 0.0 <= n < Worth(quote)
    ensures 0.0 <= Over(n, quote.price) < quote.quantity
    ensures Times(quote.price, Over(n, quote.price)) == n
  {
    hide Times;
    hide Over;
    var x := Over(n, quote.price);
    TimesOver(quote.price, n);
    TimesOrder(quote.price, x, quote.quantity);
    TimesSign(quote.price, x);
  }

  function Spent(quotes: seq<Quote>, n: real): real {
    if Notional(quotes) <= n then Notional(quotes) else n
  }

  /** The greedy fill spends all of `n`, or the whole side when that is less. */
  lemma {:induction false} GreedyFillSpends(quotes: seq<Quote>, n: real)
    requires Sane(quotes) && n >= 0.0
    ensures IsFill(quotes, GreedyFill(quotes, n))
    ensures Cost(quotes, GreedyFill(quotes, n)) == Spent(quotes, n)
    ensures Total(GreedyFill(quotes, n)) == Greedy(quotes, n)
  {
    hide Times;
    hide Over;
    if quotes == [] {
    } else if Worth(quotes[0]) <= n {
      GreedyFillSpends(quotes[1..], n - Worth(quotes[0]));
      WholeLevelSpends(quotes, n);
    } else {
      LastLevelSpends(quotes, n);
    }
  }

  lemma WholeLevelSpends(quotes: seq<Quote>, n: real)
    requires Sane(quotes) && quotes != [] && Worth(quotes[0]) <= n
    requires var ys, left := GreedyFill(quotes[1..], n - Worth(quotes[0])), n - Worth(quotes[0]);
             && IsFill(quotes[1..], ys)
             && Cost(quotes[1..], ys) == Spent(quotes[1..], left)
             && Total(ys) == Greedy(quotes[1..], left)
    ensures IsFill(quotes, GreedyFill(quotes, n))
    ensures Cost(quotes, GreedyFill(quotes, n)) == Spent(quotes, n)
    ensures Total(GreedyFill(quotes, n)) == Greedy(quotes, n)
  {
    hide Times;
    hide Over;
    hide IsFill;
    FillCons(quotes, quotes[0].quantity, GreedyFill(quotes[1..], n - Worth(quotes[0])));
  }

  lemma LastLevelSpends(quotes: seq<Quote>, n: real)
    requires Sane(quotes) && quotes != [] && 0.0 <= n < Worth(quotes[0])
    ensures IsFill(quotes, GreedyFill(quotes, n))
    ensures Cost(quotes, GreedyFill(quotes, n)) == Spent(quotes, n)
    ensures Total(GreedyFill(quotes, n)) == Greedy(quotes, n)
  {
    hide Times;
    hide Over;
    PartialLevel(quotes[0], n);
    NothingCostsNothing(quotes[1..]);
    NotionalNonNegative(quotes[1..]);
    FillCons(quotes, Over(n, quotes[0].price), Nothing(|quotes| - 1));
  }

  /** The walk adds up what the greedy fill costs and takes. */
  lemma {:induction false} WalkIsGreedy(quotes: seq<Quote>, n: real)
    requires Sane(quotes) && n >= 0.0
    ensures Walk(quotes, n) == Swept(Spent(quotes, n), Greedy(quotes, n))
  {
    hide Times;
    hide Over;
    if quotes == [] {
    } else if Worth(quotes[0]) <= n {
      WalkIsGreedy(quotes[1..], n - Worth(quotes[0]));
    } else {
      NotionalNonNegative(quotes[1..]);
    }
  }

  /** Buying something costs something. */
  lemma {:induction false} PositiveCostPositiveTotal(quotes: seq<Quote>, xs: seq<real>)
    requires Sane(quotes) && IsFill(quotes, xs)
    ensures Total(xs) >= 0.0 && Cost(quotes, xs) >= 0.0
    ensures Cost(quotes, xs) > 0.0 <==> Total(xs) > 0.0
  {
    hide Times;
    if quotes != [] {
      FillTail(quotes, xs);
      PositiveCostPositiveTotal(quotes[1..], xs[1..]);
      TimesSign(quotes[0].price, xs[0]);
    }
  }

  // ---------------------------------------------------------------- exactness

  /**
   A band exists exactly when the side holds enough notional; its quantity is the greedy fill's, its
   price times its quantity is exactly `n`, and nothing was divided by zero.
   */
  lemma BandIsExact(quotes: seq<Quote>, n: real)
    requires Sane(quotes) && n > 0.0
    ensures Band(quotes, n).Some? <==> Notional(quotes) >= n
    ensures Band(quotes, n).Some? ==>
              var row := Band(quotes, n).value;
              && row.Finite?
              && row.quote.quantity == Greedy(quotes, n) > 0.0
              && Worth(row.quote) == n
  {
    WalkIsGreedy(quotes, n);
    GreedyFillSpends(quotes, n);
    PositiveCostPositiveTotal(quotes, GreedyFill(quotes, n));
    if Band(quotes, n).Some? {
      TimesOver(Greedy(quotes, n), n);
    }
  }

  /**
   On a sane side the division fails for a zero notional, and for a negative notional on an empty
   side, and for no other request.
   */
  lemma DivisionByZeroIsExact(quotes: seq<Quote>, n: real)
    requires Sane(quotes)
    ensures Band(quotes, n) == Some(NonFinite) <==> n == 0.0 || (n < 0.0 && quotes == [])
  {
    hide Times;
    hide Over;
    if n > 0.0 {
      BandIsExact(quotes, n);
    } else if n == 0.0 {
      WalkIsGreedy(quotes, n);
      GreedyOfNothing(quotes);
      NotionalNonNegative(quotes);
    } else if quotes != [] {
      WorthNonNegative(quotes);
      TimesOver(quotes[0].price, n);
      TimesSign(quotes[0].price, Over(n, quotes[0].price));
    }
  }

  /** The quantity of a whole side. */
  function Offered(quotes: seq<Quote>): real {
    if quotes == [] then 0.0 else quotes[0].quantity + Offered(quotes[1..])
  }

  /**
   Where the walk stops, whatever the prices, the quantities and the request are: before the first level
   whose notional would exceed the request. That level gives what is missing at its own price.
   */
  ghost predicate StopsAt(quotes: seq<Quote>, n: real, k: nat) {
    && k <= |quotes|
    && (forall j :: 0 < j <= k ==> Notional(quotes[..j]) <= n)
    && (k < |quotes| ==> Notional(quotes[..k + 1]) > n)
  }

  lemma {:induction false} WalkStops(quotes: seq<Quote>, n: real) returns (k: nat)
    ensures StopsAt(quotes, n, k)
    ensures Walk(quotes, n) ==
            if k == |quotes| then Swept(Notional(quotes), Offered(quotes))
            else if quotes[k].price == 0.0 then Diverged
            else Swept(n, Offered(quotes[..k]) + Over(n - Notional(quotes[..k]), quotes[k].price))
  {
    hide Over;
    hide Worth;
    if quotes == [] {
      k := 0;
    } else if Worth(quotes[0]) <= n {
      var rest := n - Worth(quotes[0]);
      var j := WalkStops(quotes[1..], rest);
      k := j + 1;
      forall i | 0 < i <= k ensures Notional(quotes[..i]) <= n {
        NotionalOfPrefix(quotes, i);
      }
      NotionalOfPrefix(quotes, k);
      if k < |quotes| {
        NotionalOfPrefix(quotes, k + 1);
      }
    } else {
      k := 0;
      NotionalOfPrefix(quotes, 1);
    }
  }

  lemma NotionalOfPrefix(quotes: seq<Quote>, i: nat)
    requires 0 < i <= |quotes|
    ensures Notional(quotes[..i]) == Worth(quotes[0]) + Notional(quotes[1..][..i - 1])
    ensures Offered(quotes[..i]) == quotes[0].quantity + Offered(quotes[1..][..i - 1])
  {
    assert quotes[..i][1..] == quotes[1..][..i - 1];
  }

  /**
   The band for every input, negative or zero prices, quantities and requests included: the levels
   before the stop and the part that is missing, or the outcome of a division by zero on the way.
   */
  lemma BandStops(quotes: seq<Quote>, n: real) returns (k: nat)
    ensures StopsAt(quotes, n, k)
    ensures k == |quotes| ==>
              Band(quotes, n) ==
              if Notional(quotes) < n then None
              else if Offered(quotes) == 0.0 then Some(NonFinite)
              else Some(Finite(Quote(Over(Notional(quotes), Offered(quotes)), Offered(quotes))))
    ensures k < |quotes| && quotes[k].price == 0.0 ==> Band(quotes, n) == Some(NonFinite)
    ensures k < |quotes| && quotes[k].price != 0.0 ==>
              var quantity := Offered(quotes[..k]) + Over(n - Notional(quotes[..k]), quotes[k].price);
              Band(quotes, n) ==
              if quantity == 0.0 then Some(NonFinite) else Some(Finite(Quote(Over(n, quantity), quantity)))
  {
    hide Walk, StopsAt, Notional, Offered, Over;
    k := WalkStops(quotes, n);
  }

  /**
   The greedy quantity is a full prefix of the levels and at most part of the next one; together
   they are worth `n`, unless the prefix is the whole side.
   */
  lemma {:induction false} GreedyIsPrefixAndPart(quotes: seq<Quote>, n: real) returns (k: nat, part: real)
    requires Sane(quotes) && n >= 0.0
    ensures k <= |quotes| && 0.0 <= part
    ensures Greedy(quotes, n) == Offered(quotes[..k]) + part
    ensures if k < |quotes| then part < quotes[k].quantity && Notional(quotes[..k]) + Times(quotes[k].price, part) == n
            else part == 0.0 && Notional(quotes) <= n
  {
    hide Times;
    hide Over;
    if quotes == [] {
      k, part := 0, 0.0;
    } else if Worth(quotes[0]) <= n {
      k, part := GreedyIsPrefixAndPart(quotes[1..], n - Worth(quotes[0]));
      assert quotes[..k + 1][1..] == quotes[1..][..k];
      k := k + 1;
    } else {
      PartialLevel(quotes[0], n);
      k, part := 0, Over(n, quotes[0].price);
    }
  }

  /** A band's quantity is the sum of a full prefix of levels and at most one partial level, worth exactly `n`. */
  lemma BandIsPrefixAndPart(quotes: seq<Quote>, n: real) returns (k: nat, part: real)
    requires Sane(quotes) && n > 0.0 && Band(quotes, n).Some?
    ensures k <= |quotes| && 0.0 <= part
    ensures k < |quotes| ==> part < quotes[k].quantity
    ensures k == |quotes| ==> part == 0.0
    ensures Band(quotes, n).value.Finite?
    ensures Band(quotes, n).value.quote.quantity == Offered(quotes[..k]) + part
    ensures n == Notional(quotes[..k]) + if k < |quotes| then Times(quotes[k].price, part) else 0.0
  {
    hide Times;
    hide Over;
    BandIsExact(quotes, n);
    k, part := GreedyIsPrefixAndPart(quotes, n);
    assert quotes[..|quotes|] == quotes;
  }

  // ---------------------------------------------------------------- optimality

  /** At prices no better than `p`, a fill costs at least `p` a unit on asks, at most `p` on bids. */
  lemma {:induction false} CostAgainstPrice(side: Side, quotes: seq<Quote>, xs: seq<real>, p: real)
    requires IsFill(quotes, xs)
    requires forall i :: 0 <= i < |quotes| ==> !Before(side, quotes[i].price, p)
    ensures AsGood(side, Cost(quotes, xs), Times(p, Total(xs)))
  {
    hide Times;
    TimesZero(p);
    if quotes != [] {
      FillTail(quotes, xs);
      CostAgainstPrice(side, quotes[1..], xs[1..], p);
      TimesPrice(side, p, quotes[0].price, xs[0]);
      TimesSum(p, xs[0], Total(xs[1..]));
    }
  }

  lemma GreedyPartial(quotes: seq<Quote>, n: real)
    requires Sane(quotes) && quotes != [] && n < Worth(quotes[0])
    ensures Times(quotes[0].price, Greedy(quotes, n)) == n
  {
    TimesOver(quotes[0].price, n);
  }

  /** Taking `y` instead of `x` at price `q`, seen at a price `p` that is no worse. */
  lemma UnitPrice(side: Side, q: real, p: real, x: real, y: real)
    requires q > 0.0 && !Before(side, q, p) && Times(q, x) <= Times(q, y)
    ensures AsGood(side, Times(q, y) - Times(q, x), Times(p, y) - Times(p, x))
  {
    hide Times;
    TimesOrder(q, x, y);
    TimesPrice(side, p, q, y - x);
    TimesSum(p, x, y - x);
    TimesSum(q, x, y - x);
    assert x + (y - x) == y;
  }

  /**
   More notional on a side whose prices are no better than `p`: the difference buys at most its
   worth at `p` among the asks, and takes at least its worth at `p` among the bids.
   */
  lemma {:induction false} GreedyIsLipschitz(side: Side, quotes: seq<Quote>, lo: real, hi: real, p: real)
    requires Sane(quotes) && 0.0 <= lo <= hi
    requires forall i :: 0 <= i < |quotes| ==> !Before(side, quotes[i].price, p)
    requires side.BID? ==> hi <= Notional(quotes)
    ensures AsGood(side, hi - lo, Times(p, Greedy(quotes, hi)) - Times(p, Greedy(quotes, lo)))
  {
    hide Times;
    hide Over;
    if quotes == [] {
    } else {
      var q, rest := quotes[0], quotes[1..];
      if hi < Worth(q) {
        GreedyPartial(quotes, lo);
        GreedyPartial(quotes, hi);
        UnitPrice(side, q.price, p, Greedy(quotes, lo), Greedy(quotes, hi));
      } else if Worth(q) <= lo {
        GreedyIsLipschitz(side, rest, lo - Worth(q), hi - Worth(q), p);
        TimesSum(p, q.quantity, Greedy(rest, lo - Worth(q)));
        TimesSum(p, q.quantity, Greedy(rest, hi - Worth(q)));
      } else {
        GreedyPartial(quotes, lo);
        UnitPrice(side, q.price, p, Greedy(quotes, lo), q.quantity);
        GreedyIsLipschitz(side, rest, 0.0, hi - Worth(q), p);
        GreedyOfNothing(rest);
        TimesZero(p);
        TimesSum(p, q.quantity, Greedy(rest, hi - Worth(q)));
      }
    }
  }

  lemma GreedyOfNothing(quotes: seq<Quote>)
    requires Sane(quotes)
    ensures Greedy(quotes, 0.0) == 0.0
  {
    hide Times;
    GreedyFillSpends(quotes, 0.0);
    NotionalNonNegative(quotes);
    PositiveCostPositiveTotal(quotes, GreedyFill(quotes, 0.0));
  }

  /** If the fill's tail is no better than the greedy tail, the fill is no better than the greedy fill. */
  lemma SwapIsNoBetter(side: Side, p: real, q: real, x: real, tail: real, rival: real, greedy: real)
    requires p > 0.0
    requires AsGood(side, rival, tail)
    requires AsGood(side, Times(p, q) - Times(p, x), Times(p, rival) - Times(p, greedy))
    ensures AsGood(side, q + greedy, x + tail)
  {
    hide Times;
    TimesSum(p, x, q - x);
    TimesSum(p, greedy, rival - greedy);
    assert x + (q - x) == q && greedy + (rival - greedy) == rival;
    TimesOrder(p, rival - greedy, q - x);
    TimesOrder(p, q - x, rival - greedy);
  }

  /** No fill beats the walk: none within the budget buys more, none reaching the notional sells less. */
  lemma {:induction false} GreedyIsBest(side: Side, quotes: seq<Quote>, n: real, xs: seq<real>)
    requires Sane(quotes) && Ordered(side, quotes) && n >= 0.0
    requires IsFill(quotes, xs) && AsGood(side, n, Cost(quotes, xs))
    ensures AsGood(side, Greedy(quotes, n), Total(xs))
  {
    hide Times;
    hide Over;
    if quotes != [] {
      var q, rest, x := quotes[0], quotes[1..], xs[0];
      if n < Worth(q) {
        CostAgainstPrice(side, quotes, xs, q.price);
        GreedyPartial(quotes, n);
        TimesOrder(q.price, Total(xs), Greedy(quotes, n));
        TimesOrder(q.price, Greedy(quotes, n), Total(xs));
      } else {
        var left := n - Times(q.price, x);
        TimesOrder(q.price, x, q.quantity);
        FillTail(quotes, xs);
        CostWithinNotional(rest, xs[1..]);
        GreedyIsBest(side, rest, left, xs[1..]);
        GreedyIsLipschitz(side, rest, n - Worth(q), left, q.price);
        SwapIsNoBetter(side, q.price, q.quantity, x,
                       Total(xs[1..]), Greedy(rest, left), Greedy(rest, n - Worth(q)));
      }
    }
  }

  lemma {:induction false} CostWithinNotional(quotes: seq<Quote>, xs: seq<real>)
    requires Sane(quotes) && IsFill(quotes, xs)
    ensures Cost(quotes, xs) <= Notional(quotes)
  {
    hide Times;
    if quotes != [] {
      FillTail(quotes, xs);
      CostWithinNotional(quotes[1..], xs[1..]);
      TimesOrder(quotes[0].price, xs[0], quotes[0].quantity);
    }
  }

  /** Fills that a trader could use for notional `n`: within it when buying, reaching it when selling. */
  ghost predicate Rivals(side: Side, quotes: seq<Quote>, n: real, xs: seq<real>) {
    && IsFill(quotes, xs)
    && AsGood(side, n, Cost(quotes, xs))
  }

  /**
   The band's quantity is the best that any fill of notional `n` reaches, and the greedy fill
   reaches it: the maximum over the asks, the minimum over the bids.
   */
  lemma BandIsOptimal(side: Side, quotes: seq<Quote>, n: real)
    requires Sane(quotes) && Ordered(side, quotes) && n > 0.0
    requires Notional(quotes) >= n
    ensures Band(quotes, n).Some? && Band(quotes, n).value.Finite?
    ensures var best := Band(quotes, n).value.quote.quantity;
            && (forall xs :: Rivals(side, quotes, n, xs) ==> AsGood(side, best, Total(xs)))
            && (exists xs :: Rivals(side, quotes, n, xs) && Total(xs) == best)
  {
    hide Times;
    hide Over;
    BandIsExact(quotes, n);
    GreedyFillSpends(quotes, n);
    assert Rivals(side, quotes, n, GreedyFill(quotes, n));
    forall xs | Rivals(side, quotes, n, xs) ensures AsGood(side, Greedy(quotes, n), Total(xs)) {
      GreedyIsBest(side, quotes, n, xs);
    }
  }

  // ---------------------------------------------------------------- average price

  function Scaled(xs: seq<real>, t: real): seq<real> {
    if xs == [] then [] else [Times(t, xs[0])] + Scaled(xs[1..], t)
  }

  lemma {:induction false} ScaledFill(quotes: seq<Quote>, xs: seq<real>, t: real)
    requires IsFill(quotes, xs) && 0.0 <= t <= 1.0
    ensures IsFill(quotes, Scaled(xs, t))
    ensures Total(Scaled(xs, t)) == Times(t, Total(xs))
    ensures Cost(quotes, Scaled(xs, t)) == Times(t, Cost(quotes, xs))
  {
    hide Times;
    TimesZero(t);
    if quotes != [] {
      var p, x := quotes[0].price, xs[0];
      FillTail(quotes, xs);
      ScaledFill(quotes[1..], xs[1..], t);
      TimesFraction(t, x);
      FillCons(quotes, Times(t, x), Scaled(xs[1..], t));
      TimesSum(t, x, Total(xs[1..]));
      TimesSum(t, Times(p, x), Cost(quotes[1..], xs[1..]));
      TimesScale(p, t, x);
    }
  }

  /** At least as good a price: no higher for a buyer, no lower for a seller. */
  predicate NoWorsePrice(side: Side, a: real, b: real) {
    !Before(side, b, a)
  }

  /** Of two ways to trade the same notional, the one with the better quantity has the better price. */
  lemma QuantityDecidesPrice(side: Side, a: Quote, b: Quote)
    requires Worth(a) == Worth(b) > 0.0
    requires a.quantity > 0.0 && b.quantity > 0.0
    requires AsGood(side, a.quantity, b.quantity)
    ensures NoWorsePrice(side, a.price, b.price)
  {
    hide Times;
    if Before(side, b.price, a.price) {
      TimesPriceStrict(side, b.price, a.price, b.quantity);
      WorthDecidesSign(a);
      TimesOrder(a.price, a.quantity, b.quantity);
      TimesOrder(a.price, b.quantity, a.quantity);
    }
  }

  lemma WorthDecidesSign(a: Quote)
    requires Worth(a) > 0.0 && a.quantity > 0.0
    ensures a.price > 0.0
  {
    assert a.price <= 0.0 ==> a.price * a.quantity <= 0.0;
  }

  /** The same fraction of the larger fill trades the smaller notional, so it cannot beat its band. */
  lemma ScaledIsNoBetter(side: Side, quotes: seq<Quote>, n: real, m: real, t: real)
    requires Sane(quotes) && Ordered(side, quotes)
    requires 0.0 < n <= m <= Notional(quotes)
    requires Times(t, m) == n && 0.0 < t <= 1.0
    ensures AsGood(side, Greedy(quotes, n), Times(t, Greedy(quotes, m)))
  {
    hide Times;
    var xs := GreedyFill(quotes, m);
    GreedyFillSpends(quotes, m);
    ScaledFill(quotes, xs, t);
    GreedyIsBest(side, quotes, n, Scaled(xs, t));
  }

  /** Asking for more notional never improves the average price. */
  lemma AveragePriceIsMonotone(side: Side, quotes: seq<Quote>, n: real, m: real)
    requires Sane(quotes) && Ordered(side, quotes)
    requires 0.0 < n <= m && Band(quotes, m).Some?
    ensures Band(quotes, n).Some? && Band(quotes, n).value.Finite? && Band(quotes, m).value.Finite?
    ensures NoWorsePrice(side, Band(quotes, n).value.quote.price, Band(quotes, m).value.quote.price)
  {
    hide Times;
    hide Over;
    BandIsExact(quotes, n);
    BandIsExact(quotes, m);
    var small, large := Band(quotes, n).value.quote, Band(quotes, m).value.quote;
    var t := Fraction(n, m);
    ScaledIsNoBetter(side, quotes, n, m, t);
    TimesScale(large.price, t, large.quantity);
    TimesSign(t, large.quantity);
    QuantityDecidesPrice(side, small, Quote(large.price, Times(t, large.quantity)));
  }

  // ---------------------------------------------------------------- between best and last price

  /** A fill that takes only at prices no worse than `p` costs at most `p` a unit on asks, at least on bids. */
  lemma {:induction false} CostWithinPrice(side: Side, quotes: seq<Quote>, xs: seq<real>, p: real)
    requires IsFill(quotes, xs)
    requires forall i :: 0 <= i < |quotes| && xs[i] > 0.0 ==> !Before(side, p, quotes[i].price)
    ensures AsGood(side, Times(p, Total(xs)), Cost(quotes, xs))
  {
    hide Times;
    TimesZero(p);
    if quotes != [] {
      FillTail(quotes, xs);
      CostWithinPrice(side, quotes[1..], xs[1..], p);
      TimesSum(p, xs[0], Total(xs[1..]));
      if xs[0] > 0.0 {
        TimesPrice(side, quotes[0].price, p, xs[0]);
      } else {
        TimesZero(quotes[0].price);
      }
    }
  }

  lemma {:induction false} LastPositive(xs: seq<real>) returns (k: nat)
    requires Total(xs) > 0.0 && forall i :: 0 <= i < |xs| ==> xs[i] >= 0.0
    ensures k < |xs| && xs[k] > 0.0
    ensures forall i :: k < i < |xs| ==> xs[i] == 0.0
  {
    if Total(xs[1..]) > 0.0 {
      k := LastPositive(xs[1..]);
      k := k + 1;
    } else {
      k := 0;
      TotalZero(xs[1..]);
    }
  }

  lemma {:induction false} TotalZero(xs: seq<real>)
    requires forall i :: 0 <= i < |xs| ==> xs[i] >= 0.0
    ensures Total(xs) >= 0.0
    ensures Total(xs) <= 0.0 ==> forall i :: 0 <= i < |xs| ==> xs[i] == 0.0
  {
    if xs != [] {
      TotalZero(xs[1..]);
      assert forall i :: 0 < i < |xs| ==> xs[i] == xs[1..][i - 1];
    }
  }

  /** Level `k` is the last one that the walk for `n` takes anything from. */
  ghost predicate LastTouched(quotes: seq<Quote>, n: real, k: nat)
    requires Sane(quotes)
  {
    && k < |quotes|
    && GreedyFill(quotes, n)[k] > 0.0
    && forall i :: k < i < |quotes| ==> GreedyFill(quotes, n)[i] == 0.0
  }

  /** The average price lies between the best price and the last price touched. */
  lemma AveragePriceIsBetween(side: Side, quotes: seq<Quote>, n: real) returns (k: nat)
    requires Sane(quotes) && Ordered(side, quotes)
    requires n > 0.0 && Band(quotes, n).Some?
    ensures LastTouched(quotes, n, k)
    ensures Band(quotes, n).value.Finite?
    ensures var average := Band(quotes, n).value.quote.price;
            && NoWorsePrice(side, quotes[0].price, average)
            && NoWorsePrice(side, average, quotes[k].price)
  {
    hide Times;
    hide Over;
    var xs := GreedyFill(quotes, n);
    BandIsExact(quotes, n);
    GreedyFillSpends(quotes, n);
    k := LastPositive(xs);
    CostAgainstPrice(side, quotes, xs, quotes[0].price);
    CostWithinPrice(side, quotes, xs, quotes[k].price);
    var row := Band(quotes, n).value.quote;
    PriceFromWorth(side, quotes[0].price, row.price, row.quantity);
    PriceFromWorth(side, row.price, quotes[k].price, row.quantity);
  }

  lemma PriceFromWorth(side: Side, p: real, q: real, x: real)
    requires x > 0.0 && AsGood(side, Times(q, x), Times(p, x))
    ensures NoWorsePrice(side, p, q)
  {
    hide Times;
    if Before(side, q, p) {
      TimesPriceStrict(side, q, p, x);
    }
  }
}
