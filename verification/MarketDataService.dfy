/** The shared snapshot between the aggregator and the clients, and the message that carries it. */
module Publication {
  import opened Market

  datatype PriceLevel = PriceLevel(price: real, quantity: real)

  /** The message on the wire: the two repeated fields keep their order. */
  datatype Message = Message(symbol: string, bids: seq<PriceLevel>, asks: seq<PriceLevel>)

  /** The levels are the quotes, one by one: price in the price's field, quantity in the quantity's. */
  ghost predicate Carry(levels: seq<PriceLevel>, quotes: seq<Quote>) {
    && |levels| == |quotes|
    && forall i :: 0 <= i < |quotes| ==>
         levels[i].price == quotes[i].price && levels[i].quantity == quotes[i].quantity
  }

  function PriceLevels(quotes: seq<Quote>): (levels: seq<PriceLevel>)
    ensures Carry(levels, quotes)
  {
    seq(|quotes|, i requires 0 <= i < |quotes| => PriceLevel(quotes[i].price, quotes[i].quantity))
  }

  function QuotesOf(levels: seq<PriceLevel>): (quotes: seq<Quote>)
    ensures Carry(levels, quotes)
  {
    seq(|levels|, i requires 0 <= i < |levels| => Quote(levels[i].price, levels[i].quantity))
  }

  function Encode(symbol: string, book: Book): Message {
    Message(symbol, PriceLevels(book.bid), PriceLevels(book.ask))
  }

  function Decode(message: Message): Snapshot {
    Snapshot(message.symbol, Book(QuotesOf(message.asks), QuotesOf(message.bids)))
  }

  /** What is on the wire: the asks in the asks' field and the bids in the bids' field, level by level. */
  lemma EncodedFields(symbol: string, book: Book)
    ensures var message := Encode(symbol, book);
            message.symbol == symbol && Carry(message.asks, book.ask) && Carry(message.bids, book.bid)
  {
  }

  /** A client sees exactly the symbol and the book that the service held, side by side and level by level. */
  lemma ServedIsWhatWasHeld(symbol: string, book: Book)
    ensures Decode(Encode(symbol, book)) == Snapshot(symbol, book)
  {
    assert QuotesOf(PriceLevels(book.ask)) == book.ask;
    assert QuotesOf(PriceLevels(book.bid)) == book.bid;
  }

  /** Both methods run with the service's mutex held. */
  class MarketDataService {
    var symbol: string
    var book: Book

    constructor ()
      ensures symbol == "" && book == EMPTY_BOOK
    {
      symbol, book := "", EMPTY_BOOK;
    }

    method OverwriteBook(book: Book, symbol: string)
      modifies this
      ensures this.symbol == symbol && this.book == book
    {
      this.symbol := symbol;
      this.book := book;
    }

    method CreateSnapshot() returns (message: Message)
      ensures Decode(message) == Snapshot(symbol, book)
      ensures message.symbol == symbol && Carry(message.asks, book.ask) && Carry(message.bids, book.bid)
    {
      var asks, bids := [], [];
      for i := 0 to |book.ask|
        invariant asks == PriceLevels(book.ask)[..i]
      {
        asks := asks + [PriceLevel(book.ask[i].price, book.ask[i].quantity)];
      }
      for i := 0 to |book.bid|
        invariant bids == PriceLevels(book.bid)[..i]
      {
        bids := bids + [PriceLevel(book.bid[i].price, book.bid[i].quantity)];
      }
      message := Message(symbol, bids, asks);
      ServedIsWhatWasHeld(symbol, book);
    }
  }

  class MarketDataHandler {
    static method MakeSnapshot(message: Message) returns (snapshot: Snapshot)
      ensures snapshot == Decode(message)
      ensures snapshot.symbol == message.symbol
      ensures Carry(message.asks, snapshot.book.ask) && Carry(message.bids, snapshot.book.bid)
    {
      var ask, bid := [], [];
      for i := 0 to |message.asks|
        invariant ask == QuotesOf(message.asks)[..i]
      {
        ask := ask + [Quote(message.asks[i].price, message.asks[i].quantity)];
      }
      for i := 0 to |message.bids|
        invariant bid == QuotesOf(message.bids)[..i]
      {
        bid := bid + [Quote(message.bids[i].price, message.bids[i].quantity)];
      }
      snapshot := Snapshot(message.symbol, Book(ask, bid));
    }
  }
}
