/** The values that travel through the system: market updates, quotes and books. */
module Market {

  datatype Option<+T> = None | Some(value: T)

  datatype Side = ASK | BID

  datatype Exchange = BINANCE | BITMEX | BYBIT | COINBASE | HYPERLIQUID | INTERNAL | KRAKEN | OKX

  const EXCHANGE_COUNT: nat := 8

  /** The array slot that belongs to an exchange. */
  function Index(exchange: Exchange): (i: nat)
    ensures i < EXCHANGE_COUNT
    ensures ExchangeAt(i) == exchange
  {
    match exchange
    case BINANCE => 0
    case BITMEX => 1
    case BYBIT => 2
    case COINBASE => 3
    case HYPERLIQUID => 4
    case INTERNAL => 5
    case KRAKEN => 6
    case OKX => 7
  }

  function ExchangeAt(i: nat): Exchange
    requires i < EXCHANGE_COUNT
  {
    [BINANCE, BITMEX, BYBIT, COINBASE, HYPERLIQUID, INTERNAL, KRAKEN, OKX][i]
  }

  lemma IndexOfExchangeAt(i: nat)
    requires i < EXCHANGE_COUNT
    ensures Index(ExchangeAt(i)) == i
  {
  }

  type Ticker = string

  datatype MarketUpdate = MarketUpdate(
    price: real,
    quantity: real,
    ticker: Ticker,
    side: Side,
    exchange: Exchange)

  datatype Quote = Quote(price: real, quantity: real)

  datatype Book = Book(ask: seq<Quote>, bid: seq<Quote>) {
    function On(side: Side): seq<Quote> {
      if side.ASK? then ask else bid
    }
  }

  const EMPTY_BOOK := Book([], [])

  datatype Snapshot = Snapshot(symbol: string, book: Book)

  /** The comparator of a side's ordered map: asks ascend, bids descend. */
  predicate Before(side: Side, p: real, q: real) {
    if side.ASK? then p < q else p > q
  }

  /** Strictly sorted: best price first and every price once. */
  ghost predicate Sorted(side: Side, quotes: seq<Quote>) {
    forall i, j :: 0 <= i < j < |quotes| ==> Before(side, quotes[i].price, quotes[j].price)
  }

  /** Sorted, but a price may appear several times. */
  ghost predicate Ordered(side: Side, quotes: seq<Quote>) {
    forall i, j :: 0 <= i < j < |quotes| ==> !Before(side, quotes[j].price, quotes[i].price)
  }

  /** Prices are positive and no quantity is negative. */
  ghost predicate Sane(quotes: seq<Quote>) {
    forall i :: 0 <= i < |quotes| ==> quotes[i].price > 0.0 && quotes[i].quantity >= 0.0
  }
}
