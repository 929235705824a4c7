/** The price bands client: the quantity on offer within a relative distance of the best price. */
module Depth {
  import opened Market
  import opened Reals
  import opened Sweep

  /** The limit price, `bps` ten-thousandths away from the best one towards worse prices. */
  function Shifted(side: Side, best: real, bps: int): real {
    Times(best, 1.0 + if side.ASK? then bps as real / 10000.0 else -(bps as real) / 10000.0)
  }

  /** The quantity of the leading quotes that are strictly better than the limit. */
  function Leading(side: Side, quotes: seq<Quote>, limit: real): real {
    if quotes == [] || !Before(side, quotes[0].price, limit) then 0.0
    else quotes[0].quantity + Leading(side, quotes[1..], limit)
  }

  function DepthBand(side: Side, quotes: seq<Quote>, bps: int): Option<Quote> {
    if quotes == [] then None
    else
      var limit := Shifted(side, quotes[0].price, bps);
      Some(Quote(limit, Leading(side, quotes, limit)))
  }

  class PriceBands {
    const bandValues: seq<int>

    constructor (bandValues: seq<int>)
      ensures this.bandValues == bandValues
    {
      this.bandValues := bandValues;
    }

    /** One row per configured value on every side that has quotes, none on an empty side. */
    method Compute(book: Book) returns (bands: Book)
      ensures forall side :: |bands.On(side)| == if book.On(side) == [] then 0 else |bandValues|
      ensures forall side, i :: 0 <= i < |bands.On(side)|
                ==> DepthBand(side, book.On(side), bandValues[i]) == Some(bands.On(side)[i])
    {
      var ask, bid := [], [];
      for i := 0 to |bandValues|
        invariant |ask| == if book.ask == [] then 0 else i
        invariant |bid| == if book.bid == [] then 0 else i
        invariant forall j :: 0 <= j < |ask| ==> DepthBand(ASK, book.ask, bandValues[j]) == Some(ask[j])
        invariant forall j :: 0 <= j < |bid| ==> DepthBand(BID, book.bid, bandValues[j]) == Some(bid[j])
      {
        var band := CalculateBand(book.ask, ASK, bandValues[i]);
        if band.Some? {
          ask := ask + [band.value];
        }
        band := CalculateBand(book.bid, BID, bandValues[i]);
        if band.Some? {
          bid := bid + [band.value];
        }
      }
      bands := Book(ask, bid);
    }

    static method CalculateBand(quotes: seq<Quote>, side: Side, bps: int) returns (band: Option<Quote>)
      ensures band == DepthBand(side, quotes, bps)
      ensures band.None? <==> quotes == []
      ensures quotes != [] ==> IsAtDistance(side, quotes[0].price, bps, band.value.price)
      ensures quotes != [] && Ordered(side, quotes) ==>
                band.value.quantity == Inside(side, quotes, band.value.price)
    {
      if quotes == [] {
        return None;
      }
      var bestPrice := quotes[0].price;
      var shift := if side == ASK then bps as real / 10000.0 else -(bps as real) / 10000.0;
      var shiftedPrice := Times(bestPrice, 1.0 + shift);
      var cumulatedQuantity := 0.0;
      PriceBandIsExact(side, quotes, bps);
      hide Times;
      var i := 0;
      while i < |quotes|
        invariant i <= |quotes|
        invariant Leading(side, quotes, shiftedPrice) == cumulatedQuantity + Leading(side, quotes[i..], shiftedPrice)
      {
        assert quotes[i..][0] == quotes[i] && quotes[i..][1..] == quotes[i + 1..];
        if (side == ASK && quotes[i].price < shiftedPrice) || (side == BID && quotes[i].price > shiftedPrice) {
          cumulatedQuantity := cumulatedQuantity + quotes[i].quantity;
        } else {
          break;
        }
        i := i + 1;
      }
      return Some(Quote(shiftedPrice, cumulatedQuantity));
    }
  }

  // ---------------------------------------------------------------- early break

  /** The quantity of all quotes strictly better than the limit, wherever they stand. */
  function Inside(side: Side, quotes: seq<Quote>, limit: real): real {
    if quotes == [] then 0.0
    else (if Before(side, quotes[0].price, limit) then quotes[0].quantity else 0.0) + Inside(side, quotes[1..], limit)
  }

  lemma {:induction false} NothingInside(side: Side, quotes: seq<Quote>, limit: real)
    requires forall i :: 0 <= i < |quotes| ==> !Before(side, quotes[i].price, limit)
    ensures Inside(side, quotes, limit) == 0.0 && InsideNotional(side, quotes, limit) == 0.0
  {
    if quotes != [] {
      NothingInside(side, quotes[1..], limit);
    }
  }

  /** On an ordered side, stopping at the first quote outside the limit leaves nothing out. */
  lemma {:induction false} EarlyBreakIsFilter(side: Side, quotes: seq<Quote>, limit: real)
    requires Ordered(side, quotes)
    ensures Leading(side, quotes, limit) == Inside(side, quotes, limit)
  {
    if quotes == [] {
    } else if Before(side, quotes[0].price, limit) {
      EarlyBreakIsFilter(side, quotes[1..], limit);
    } else {
      NothingInside(side, quotes, limit);
    }
  }

  /** The limit is `bps` ten-thousandths of the best price above the best ask, below the best bid. */
  ghost predicate IsAtDistance(side: Side, best: real, bps: int, limit: real) {
    10000.0 * (limit - best) == if side.ASK? then best * bps as real else -(best * bps as real)
  }

  lemma ShiftedIsRelative(side: Side, best: real, bps: int)
    ensures IsAtDistance(side, best, bps, Shifted(side, best, bps))
  {
    var fraction := bps as real / 10000.0;
    assert best * (10000.0 * fraction) == best * bps as real;
  }

  /** The leading quotes are the longest prefix that is strictly inside the limit, on any list of quotes. */
  lemma {:induction false} LeadingIsLongestPrefix(side: Side, quotes: seq<Quote>, limit: real) returns (k: nat)
    ensures k <= |quotes| && (k < |quotes| ==> !Before(side, quotes[k].price, limit))
    ensures forall i :: 0 <= i < k ==> Before(side, quotes[i].price, limit)
    ensures Leading(side, quotes, limit) == Offered(quotes[..k])
  {
    if quotes == [] || !Before(side, quotes[0].price, limit) {
      k := 0;
    } else {
      k := LeadingIsLongestPrefix(side, quotes[1..], limit);
      k := k + 1;
      assert quotes[..k][1..] == quotes[1..][..k - 1];
    }
  }

  /**
   A price band is what its configured distance says: it exists on a side that has quotes, stands that
   many ten-thousandths from the best price, and on an ordered side has the quantity of all the quotes
   that are strictly inside.
   */
  lemma PriceBandIsExact(side: Side, quotes: seq<Quote>, bps: int)
    ensures DepthBand(side, quotes, bps).None? <==> quotes == []
    ensures quotes != [] ==> IsAtDistance(side, quotes[0].price, bps, DepthBand(side, quotes, bps).value.price)
    ensures quotes != [] && Ordered(side, quotes) ==>
              var band := DepthBand(side, quotes, bps).value;
              band.quantity == Inside(side, quotes, band.price)
  {
    hide IsAtDistance, Shifted;
    if quotes != [] {
      var limit := Shifted(side, quotes[0].price, bps);
      ShiftedIsRelative(side, quotes[0].price, bps);
      if Ordered(side, quotes) {
        EarlyBreakIsFilter(side, quotes, limit);
      }
    }
  }

  lemma ShiftedIsMonotone(side: Side, best: real, a: int, b: int)
    requires best > 0.0 && a <= b
    ensures !Before(side, Shifted(side, best, b), Shifted(side, best, a))
    ensures a < b ==> Before(side, Shifted(side, best, a), Shifted(side, best, b))
    ensures Shifted(side, best, 0) == best
  {
    hide Times;
    var s := if side.ASK? then 1.0 else -1.0;
    TimesOrder(best, 1.0 + s * (a as real) / 10000.0, 1.0 + s * (b as real) / 10000.0);
    TimesOrder(best, 1.0 + s * (b as real) / 10000.0, 1.0 + s * (a as real) / 10000.0);
    TimesCommutes(best, 1.0);
  }

  lemma {:induction false} LeadingIsMonotone(side: Side, quotes: seq<Quote>, a: real, b: real)
    requires Sane(quotes) && !Before(side, b, a)
    ensures 0.0 <= Leading(side, quotes, a) <= Leading(side, quotes, b)
  {
    if quotes != [] {
      LeadingIsMonotone(side, quotes[1..], a, b);
    }
  }

  /** A wider band never shows less. */
  lemma DepthIsMonotone(side: Side, quotes: seq<Quote>, a: int, b: int)
    requires Sane(quotes) && quotes != [] && a <= b
    ensures DepthBand(side, quotes, a).value.quantity <= DepthBand(side, quotes, b).value.quantity
  {
    ShiftedIsMonotone(side, quotes[0].price, a, b);
    LeadingIsMonotone(side, quotes, Shifted(side, quotes[0].price, a), Shifted(side, quotes[0].price, b));
  }

  /** The best level is inside the band exactly when the distance is positive; otherwise the band shows nothing. */
  lemma BestLevelIsInside(side: Side, quotes: seq<Quote>, bps: int)
    requires Sane(quotes) && quotes != []
    ensures bps > 0 ==> DepthBand(side, quotes, bps).value.quantity >= quotes[0].quantity
    ensures bps <= 0 ==> DepthBand(side, quotes, bps).value.quantity == 0.0
    ensures Before(side, quotes[0].price, DepthBand(side, quotes, bps).value.price) <==> bps > 0
  {
    hide Shifted;
    var best := quotes[0].price;
    if bps > 0 {
      ShiftedIsMonotone(side, best, 0, bps);
      LeadingIsMonotone(side, quotes[1..], Shifted(side, best, bps), Shifted(side, best, bps));
    } else {
      ShiftedIsMonotone(side, best, bps, 0);
    }
  }

  // ---------------------------------------------------------------- duality with the notional sweep

  /** The notional of all quotes strictly better than the limit. */
  function InsideNotional(side: Side, quotes: seq<Quote>, limit: real): real {
    if quotes == [] then 0.0
    else
      (if Before(side, quotes[0].price, limit) then Worth(quotes[0]) else 0.0)
      + InsideNotional(side, quotes[1..], limit)
  }

  /** When the quotes inside the limit are worth `n`, the walk for `n` takes from nothing else. */
  lemma {:induction false} GreedyStaysInside(side: Side, quotes: seq<Quote>, n: real, limit: real)
    requires Sane(quotes) && Ordered(side, quotes)
    requires 0.0 <= n <= InsideNotional(side, quotes, limit)
    ensures forall i :: 0 <= i < |quotes| && GreedyFill(quotes, n)[i] > 0.0 ==> Before(side, quotes[i].price, limit)
  {
    hide Times;
    hide Over;
    if quotes == [] {
    } else if !Before(side, quotes[0].price, limit) {
      NothingInside(side, quotes, limit);
      GreedyFillSpends(quotes, 0.0);
      GreedyOfNothing(quotes);
      TotalZero(GreedyFill(quotes, 0.0));
    } else if Worth(quotes[0]) <= n {
      GreedyStaysInside(side, quotes[1..], n - Worth(quotes[0]), limit);
    }
  }

  lemma {:induction false} InsideBounds(side: Side, quotes: seq<Quote>, xs: seq<real>, limit: real)
    requires Sane(quotes) && IsFill(quotes, xs)
    requires forall i :: 0 <= i < |quotes| && xs[i] > 0.0 ==> Before(side, quotes[i].price, limit)
    ensures Total(xs) <= Inside(side, quotes, limit)
    ensures InsideNotional(side, quotes, limit) <= Notional(quotes)
  {
    hide Times;
    if quotes != [] {
      FillTail(quotes, xs);
      WorthNonNegative(quotes);
      InsideBounds(side, quotes[1..], xs[1..], limit);
    }
  }

  /**
   If the quotes strictly inside a price band are worth at least `n`, the notional band for `n`
   exists, needs no more than the price band's quantity, and its average price is strictly inside.
   */
  lemma DepthBoundsNotional(side: Side, quotes: seq<Quote>, bps: int, n: real)
    requires Sane(quotes) && Ordered(side, quotes) && quotes != [] && n > 0.0
    requires InsideNotional(side, quotes, Shifted(side, quotes[0].price, bps)) >= n
    ensures Band(quotes, n).Some? && Band(quotes, n).value.Finite?
    ensures var band, depth := Band(quotes, n).value.quote, DepthBand(side, quotes, bps).value;
            band.quantity <= depth.quantity && Before(side, band.price, depth.price)
  {
    hide Times;
    hide Over;
    hide Shifted;
    var limit := Shifted(side, quotes[0].price, bps);
    var xs := GreedyFill(quotes, n);
    GreedyFillSpends(quotes, n);
    GreedyStaysInside(side, quotes, n, limit);
    InsideBounds(side, quotes, xs, limit);
    EarlyBreakIsFilter(side, quotes, limit);
    BandIsExact(quotes, n);
    var k := AveragePriceIsBetween(side, quotes, n);
  }
}
