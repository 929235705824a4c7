/**
 The aggregator as it runs: per-exchange quantities in a fixed buffer, one ordered map per side kept
 in a sorted array that is searched, shifted open and shifted closed in place, and the book
 generated from them.
 */
module Aggregation {
  import opened Market
  import opened Slots
  import opened Levels
  import opened Consolidation

  /** The quantities of one price level, one slot per exchange. */
  class Quantities {
    const slots: array<real>

    ghost predicate Valid() {
      slots.Length == EXCHANGE_COUNT
    }

    constructor ()
      ensures Valid() && fresh(slots)
      ensures slots[..] == ZEROS
    {
      slots := new real[EXCHANGE_COUNT](_ => 0.0);
    }

    method Set(exchange: Exchange, quantity: real)
      requires Valid()
      modifies slots
      ensures slots[..] == Write(old(slots[..]), exchange, quantity)
    {
      slots[Index(exchange)] := quantity;
    }

    method Reset(exchange: Exchange)
      requires Valid()
      modifies slots
      ensures slots[..] == Write(old(slots[..]), exchange, 0.0)
    {
      Set(exchange, 0.0);
    }

    /** Counts the zeros; the level is empty when there are as many as slots. */
    method Empty() returns (empty: bool)
      ensures empty <==> AllZero(slots[..])
    {
      var count := 0;
      for i := 0 to slots.Length
        invariant count == ZeroCount(slots[..i])
      {
        assert slots[..i + 1][..i] == slots[..i];
        if slots[i] == 0.0 {
          count := count + 1;
        }
      }
      assert slots[..slots.Length] == slots[..];
      ZeroCountIsFullIffAllZero(slots[..]);
      empty := count == slots.Length;
    }

    method Total() returns (total: real)
      ensures total == Sum(slots[..])
    {
      total := 0.0;
      for i := 0 to slots.Length
        invariant total == Sum(slots[..i])
      {
        assert slots[..i + 1][..i] == slots[..i];
        total := total + slots[i];
      }
      assert slots[..slots.Length] == slots[..];
    }
  }

  class Node {
    const price: real
    const quantities: Quantities

    constructor (price: real)
      ensures this.price == price
      ensures quantities.Valid() && fresh(quantities) && fresh(quantities.slots)
      ensures quantities.slots[..] == ZEROS
    {
      this.price := price;
      this.quantities := new Quantities();
    }
  }

  /** A node in memory holds a level. */
  ghost predicate Holds(node: Node, level: Level)
    reads node.quantities.slots
  {
    node.quantities.Valid() && level == Level(node.price, node.quantities.slots[..])
  }

  /** The ordered map of one side: nodes sorted by the side's comparator. */
  class PriceMap {
    const side: Side
    var nodes: array<Node?>
    var size: nat
    ghost var Contents: seq<Level>
    ghost var Repr: set<object>

    ghost predicate Valid()
      reads this, Repr
      ensures Valid() ==> this in Repr
    {
      && this in Repr && nodes in Repr
      && size <= nodes.Length
      && |Contents| == size
      && (forall i :: 0 <= i < size ==>
            && nodes[i] != null
            && nodes[i].quantities.slots in Repr
            && Holds(nodes[i], Contents[i]))
      && (forall i, j :: 0 <= i < j < size ==> nodes[i].quantities.slots != nodes[j].quantities.slots)
      && SortedLevels(side, Contents)
    }

    constructor (side: Side)
      ensures Valid() && fresh(Repr)
      ensures this.side == side && Contents == []
    {
      this.side := side;
      nodes := new Node?[4](_ => null);
      size := 0;
      Contents := [];
      Repr := {this, nodes};
    }

    /** Binary search for the first node that does not come before the price. */
    method LowerBound(price: real) returns (k: nat)
      requires Valid()
      ensures k == Rank(side, Contents, price)
    {
      k := 0;
      var high := size;
      while k < high
        invariant k <= high <= size
        invariant forall i :: 0 <= i < k ==> Before(side, Contents[i].price, price)
        invariant forall i :: high <= i < size ==> !Before(side, Contents[i].price, price)
      {
        var mid := (k + high) / 2;
        if Before(side, nodes[mid].price, price) {
          k := mid + 1;
        } else {
          high := mid;
        }
      }
      RankIs(side, Contents, price, k);
    }

    /** Makes room for one more node, moving the nodes to a larger array when this one is full. */
    method Reserve()
      requires Valid()
      modifies this
      ensures Valid() && fresh(Repr - old(Repr)) && old(Repr) <= Repr
      ensures Contents == old(Contents) && size == old(size)
      ensures size < nodes.Length
    {
      if size == nodes.Length {
        var larger := new Node?[2 * size + 1](_ => null);
        for i := 0 to size
          invariant forall j :: 0 <= j < i ==> larger[j] == nodes[j]
          modifies larger
        {
          larger[i] := nodes[i];
        }
        nodes := larger;
        Repr := Repr + {larger};
      }
    }

    static method ShiftRight(nodes: array<Node?>, k: nat, size: nat)
      requires k <= size < nodes.Length
      modifies nodes
      ensures forall j :: 0 <= j < k ==> nodes[j] == old(nodes[j])
      ensures forall j :: k < j <= size ==> nodes[j] == old(nodes[j - 1])
    {
      var i := size;
      while i > k
        invariant k <= i <= size
        invariant forall j :: 0 <= j < i ==> nodes[j] == old(nodes[j])
        invariant forall j :: i < j <= size ==> nodes[j] == old(nodes[j - 1])
      {
        nodes[i] := nodes[i - 1];
        i := i - 1;
      }
    }

    static method ShiftLeft(nodes: array<Node?>, k: nat, size: nat)
      requires k < size <= nodes.Length
      modifies nodes
      ensures forall j :: 0 <= j < k ==> nodes[j] == old(nodes[j])
      ensures forall j :: k <= j < size - 1 ==> nodes[j] == old(nodes[j + 1])
    {
      var i := k;
      while i + 1 < size
        invariant k <= i < size
        invariant forall j :: 0 <= j < k ==> nodes[j] == old(nodes[j])
        invariant forall j :: k <= j < i ==> nodes[j] == old(nodes[j + 1])
        invariant forall j :: i < j < size ==> nodes[j] == old(nodes[j])
      {
        nodes[i] := nodes[i + 1];
        i := i + 1;
      }
    }

    /** Shifts the nodes from `k` on by one place and puts a node that is not in use yet at `k`. */
    method InsertAt(k: nat, node: Node, ghost level: Level)
      requires Valid()
      requires k <= size < nodes.Length
      requires Holds(node, level) && node.quantities.slots !in Repr
      requires forall i :: 0 <= i < k ==> Before(side, Contents[i].price, level.price)
      requires forall i :: k <= i < size ==> Before(side, level.price, Contents[i].price)
      modifies Repr
      ensures Valid() && Repr == old(Repr) + {node.quantities.slots}
      ensures Contents == old(Contents)[..k] + [level] + old(Contents)[k..]
    {
      hide Before, SortedLevels, Holds;
      InsertedIsSorted(side, Contents, k, level);
      ShiftRight(nodes, k, size);
      nodes[k] := node;
      size := size + 1;
      Contents := Contents[..k] + [level] + Contents[k..];
      Repr := Repr + {node.quantities.slots};
    }

    /** The position of the price's node, inserted with zero quantities when it is missing. */
    method FindOrInsert(price: real) returns (k: nat)
      requires Valid()
      modifies Repr
      ensures Valid() && fresh(Repr - old(Repr))
      ensures k == Rank(side, old(Contents), price)
      ensures Contents == Touched(old(Contents), k, price)
    {
      hide Sum, Upsert;
      k := LowerBound(price);
      if k == size || nodes[k].price != price {
        Reserve();
        var node := new Node(price);
        InsertAt(k, node, Level(price, ZEROS));
      }
    }

    /** Overwrites one slot of the node at `k`. */
    method SetAt(k: nat, exchange: Exchange, quantity: real)
      requires Valid()
      requires k < size
      modifies Repr
      ensures Valid() && Repr == old(Repr)
      ensures var before := old(Contents)[k];
              Contents == old(Contents)[k := Level(before.price, Write(before.slots, exchange, quantity))]
    {
      nodes[k].quantities.Set(exchange, quantity);
      Contents := Contents[k := Level(Contents[k].price, Write(Contents[k].slots, exchange, quantity))];
    }

    /** Shifts the nodes after `k` back by one place, closing the gap. */
    method RemoveAt(k: nat)
      requires Valid()
      requires k < size
      modifies Repr
      ensures Valid() && Repr == old(Repr)
      ensures Contents == old(Contents)[..k] + old(Contents)[k + 1..]
    {
      hide Sum, Upsert, Rank, Before, SortedLevels;
      hide Holds;
      RemovedIsSorted(side, Contents, k);
      ShiftLeft(nodes, k, size);
      size := size - 1;
      Contents := Contents[..k] + Contents[k + 1..];
    }

    /** Removes the price's node and does nothing when the price is not there. */
    method Erase(price: real)
      requires Valid()
      modifies Repr
      ensures Valid() && Repr == old(Repr)
      ensures Contents == Erased(old(Contents), Rank(side, old(Contents), price), price)
    {
      var k := LowerBound(price);
      if k < size && nodes[k].price == price {
        RemoveAt(k);
      }
    }

    /** One update on this side, exactly as the functional `Upsert` describes it. */
    method Update(price: real, exchange: Exchange, quantity: real)
      requires Valid()
      modifies Repr
      ensures Valid() && fresh(Repr - old(Repr))
      ensures Contents == Upsert(side, old(Contents), price, exchange, quantity)
    {
      hide Sum, Upsert, Rank;
      var k := FindOrInsert(price);
      UpsertAt(side, old(Contents), price, exchange, quantity, k);
      TouchWriteSettle(old(Contents), k, price, exchange, quantity);
      SetAt(k, exchange, quantity);
      var total := nodes[k].quantities.Total();
      if total == 0.0 {
        assert k == Rank(side, Contents, price);
        Erase(price);
      }
    }

    /** The side as quotes, best price first. */
    method Flatten() returns (quotes: seq<Quote>)
      requires Valid()
      ensures quotes == Quotes(Contents)
    {
      quotes := [];
      for i := 0 to size
        invariant quotes == Quotes(Contents)[..i]
      {
        var total := nodes[i].quantities.Total();
        quotes := quotes + [Quote(nodes[i].price, total)];
      }
    }
  }

  class Aggregator {
    const ask: PriceMap
    const bid: PriceMap
    ghost var History: Log

    /** The two maps are apart from each other and hold what the history of updates leaves. */
    ghost predicate Valid()
      reads this, ask, bid, ask.Repr, bid.Repr
    {
      && ask.Valid() && bid.Valid()
      && this !in ask.Repr && this !in bid.Repr && ask.Repr !! bid.Repr
      && ask.side == ASK && bid.side == BID
      && ask.Contents == LevelsAfter(History, ASK)
      && bid.Contents == LevelsAfter(History, BID)
    }

    constructor ()
      ensures Valid() && fresh(ask.Repr) && fresh(bid.Repr)
      ensures History == []
    {
      ask := new PriceMap(ASK);
      bid := new PriceMap(BID);
      History := [];
    }

    method OnUpdate(update: MarketUpdate)
      requires Valid()
      modifies this, ask.Repr, bid.Repr
      ensures Valid() && fresh(ask.Repr - old(ask.Repr)) && fresh(bid.Repr - old(bid.Repr))
      ensures History == old(History) + [update]
    {
      hide Sum, Upsert, Rank;
      if update.side == ASK {
        ask.Update(update.price, update.exchange, update.quantity);
      } else {
        bid.Update(update.price, update.exchange, update.quantity);
      }
      assert (History + [update])[..|History|] == History;
      History := History + [update];
    }

    method GenerateBook() returns (book: Book)
      requires Valid()
      ensures book == BookAfter(History)
    {
      var asks := ask.Flatten();
      var bids := bid.Flatten();
      book := Book(asks, bids);
    }
  }
}
