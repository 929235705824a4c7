/**
 One side of the aggregator as a value: a sorted list of price levels, each with its
 per-exchange slots, and what one update does to it.
 */
module Levels {
  import opened Market
  import opened Slots

  datatype Level = Level(price: real, slots: Slots)

  /** What the book shows of a level: its price and the total over all exchanges. */
  function Shown(level: Level): Quote {
    Quote(level.price, Sum(level.slots))
  }

  ghost predicate SortedLevels(side: Side, levels: seq<Level>) {
    forall i, j :: 0 <= i < j < |levels| ==> Before(side, levels[i].price, levels[j].price)
  }

  ghost predicate NoZeroTotal(levels: seq<Level>) {
    forall i :: 0 <= i < |levels| ==> Sum(levels[i].slots) != 0.0
  }

  /** A level as the update leaves it: gone when its slots sum to zero. */
  function Settled(level: Level): seq<Level> {
    if Sum(level.slots) == 0.0 then [] else [level]
  }

  /** The effect of one update: insert on demand, overwrite one slot, erase on a zero total. */
  function Upsert(side: Side, levels: seq<Level>, price: real, exchange: Exchange, quantity: real): seq<Level> {
    if levels == [] || Before(side, price, levels[0].price) then
      Settled(Level(price, Write(ZEROS, exchange, quantity))) + levels
    else if levels[0].price == price then
      Settled(Level(price, Write(levels[0].slots, exchange, quantity))) + levels[1..]
    else
      [levels[0]] + Upsert(side, levels[1..], price, exchange, quantity)
  }

  /** The slots listed at a price; a price that is not listed has eight zeros. */
  function SlotsAt(levels: seq<Level>, price: real): Slots {
    if levels == [] then ZEROS
    else if levels[0].price == price then levels[0].slots
    else SlotsAt(levels[1..], price)
  }

  function Quotes(levels: seq<Level>): (quotes: seq<Quote>)
    ensures |quotes| == |levels|
    ensures forall i :: 0 <= i < |levels| ==> quotes[i] == Shown(levels[i])
  {
    seq(|levels|, i requires 0 <= i < |levels| => Shown(levels[i]))
  }

  lemma {:induction false} SlotsAtUnlisted(levels: seq<Level>, price: real)
    requires forall i :: 0 <= i < |levels| ==> levels[i].price != price
    ensures SlotsAt(levels, price) == ZEROS
  {
    if levels != [] {
      SlotsAtUnlisted(levels[1..], price);
    }
  }

  lemma {:induction false} SlotsAtListed(side: Side, levels: seq<Level>, i: nat)
    requires SortedLevels(side, levels) && i < |levels|
    ensures SlotsAt(levels, levels[i].price) == levels[i].slots
  {
    if i > 0 {
      assert levels[1..][i - 1] == levels[i];
      SlotsAtListed(side, levels[1..], i - 1);
    }
  }

  /** A price with a non-zero slot is listed somewhere. */
  lemma {:induction false} NonZeroIsListed(levels: seq<Level>, price: real) returns (i: nat)
    requires SlotsAt(levels, price) != ZEROS
    ensures i < |levels| && levels[i] == Level(price, SlotsAt(levels, price))
  {
    if levels[0].price == price {
      i := 0;
    } else {
      i := NonZeroIsListed(levels[1..], price);
      i := i + 1;
    }
  }

  /** How many levels come strictly before a price. */
  function Rank(side: Side, levels: seq<Level>, price: real): (k: nat)
    ensures k <= |levels|
    ensures forall i :: 0 <= i < k ==> Before(side, levels[i].price, price)
    ensures k < |levels| ==> !Before(side, levels[k].price, price)
  {
    if levels == [] || !Before(side, levels[0].price, price) then 0
    else Rank(side, levels[1..], price) + 1
  }

  lemma {:induction false} RankIs(side: Side, levels: seq<Level>, price: real, k: nat)
    requires k <= |levels|
    requires forall i :: 0 <= i < k ==> Before(side, levels[i].price, price)
    requires k < |levels| ==> !Before(side, levels[k].price, price)
    ensures k == Rank(side, levels, price)
  {
    if k > 0 {
      RankIs(side, levels[1..], price, k - 1);
    }
  }

  /** Whether position `k` of the side holds the price. */
  predicate ListedAt(levels: seq<Level>, k: nat, price: real) {
    k < |levels| && levels[k].price == price
  }

  /** The side with a settled level spliced in at position `k`. */
  function Spliced(levels: seq<Level>, k: nat, price: real, exchange: Exchange, quantity: real): seq<Level>
    requires k <= |levels|
  {
    if ListedAt(levels, k, price) then
      levels[..k] + Settled(Level(price, Write(levels[k].slots, exchange, quantity))) + levels[k + 1..]
    else
      levels[..k] + Settled(Level(price, Write(ZEROS, exchange, quantity))) + levels[k..]
  }

  lemma SplicedTail(levels: seq<Level>, k: nat, price: real, exchange: Exchange, quantity: real)
    requires 0 < k <= |levels|
    ensures Spliced(levels, k, price, exchange, quantity)
         == [levels[0]] + Spliced(levels[1..], k - 1, price, exchange, quantity)
  {
    var head, tail := [levels[0]], levels[1..];
    assert levels[..k] == head + tail[..k - 1];
    if ListedAt(levels, k, price) {
      assert levels[k + 1..] == tail[k..];
      Associate(head, tail[..k - 1], Settled(Level(price, Write(levels[k].slots, exchange, quantity))), tail[k..]);
    } else {
      assert levels[k..] == tail[k - 1..];
      Associate(head, tail[..k - 1], Settled(Level(price, Write(ZEROS, exchange, quantity))), tail[k - 1..]);
    }
  }

  lemma InsertedIsSorted(side: Side, levels: seq<Level>, k: nat, level: Level)
    requires SortedLevels(side, levels) && k <= |levels|
    requires forall i :: 0 <= i < k ==> Before(side, levels[i].price, level.price)
    requires forall i :: k <= i < |levels| ==> Before(side, level.price, levels[i].price)
    ensures SortedLevels(side, levels[..k] + [level] + levels[k..])
    ensures forall i :: 0 <= i < k ==> (levels[..k] + [level] + levels[k..])[i] == levels[i]
    ensures (levels[..k] + [level] + levels[k..])[k] == level
    ensures forall i :: k < i <= |levels| ==> (levels[..k] + [level] + levels[k..])[i] == levels[i - 1]
  {
  }

  lemma RemovedIsSorted(side: Side, levels: seq<Level>, k: nat)
    requires SortedLevels(side, levels) && k < |levels|
    ensures SortedLevels(side, levels[..k] + levels[k + 1..])
    ensures forall i :: 0 <= i < k ==> (levels[..k] + levels[k + 1..])[i] == levels[i]
    ensures forall i :: k < i < |levels| ==> (levels[..k] + levels[k + 1..])[i - 1] == levels[i]
  {
  }

  /** The side with an empty level inserted at position `k`, unless the price is already there. */
  function Touched(levels: seq<Level>, k: nat, price: real): seq<Level>
    requires k <= |levels|
  {
    if ListedAt(levels, k, price) then levels else levels[..k] + [Level(price, ZEROS)] + levels[k..]
  }

  /** The side without the price, which can only be at position `k`. */
  function Erased(levels: seq<Level>, k: nat, price: real): seq<Level>
    requires k <= |levels|
  {
    if ListedAt(levels, k, price) then levels[..k] + levels[k + 1..] else levels
  }

  /** Inserting on demand, overwriting and then erasing a zero total is the splice. */
  lemma TouchWriteSettle(levels: seq<Level>, k: nat, price: real, exchange: Exchange, quantity: real)
    requires k <= |levels|
    ensures var touched := Touched(levels, k, price);
            && ListedAt(touched, k, price)
            && var written := touched[k := Level(price, Write(touched[k].slots, exchange, quantity))];
               Spliced(levels, k, price, exchange, quantity)
               == if Sum(written[k].slots) == 0.0 then Erased(written, k, price) else written
  {
    hide Sum, Write;
    var touched := Touched(levels, k, price);
    assert touched[..k] == levels[..k];
    assert touched[k + 1..] == if ListedAt(levels, k, price) then levels[k + 1..] else levels[k..];
    WrittenAt(touched, k, Level(price, Write(touched[k].slots, exchange, quantity)));
  }

  lemma WrittenAt(levels: seq<Level>, k: nat, level: Level)
    requires k < |levels|
    ensures var written := levels[k := level];
            && written[..k] == levels[..k] && written[k + 1..] == levels[k + 1..]
            && written == levels[..k] + [level] + levels[k + 1..]
  {
  }

  lemma Associate<T>(a: seq<T>, b: seq<T>, c: seq<T>, d: seq<T>)
    ensures a + b + c + d == a + (b + c + d)
  {
  }

  /**
   Where the update lands: the levels before the price, the settled level, the levels after it.
   This is the form in which the in-place array is proved against `Upsert`.
   */
  lemma {:induction false} UpsertAt(side: Side, levels: seq<Level>,
                                    price: real, exchange: Exchange, quantity: real, k: nat)
    requires k <= |levels|
    requires forall i :: 0 <= i < k ==> Before(side, levels[i].price, price)
    requires k < |levels| ==> !Before(side, levels[k].price, price)
    ensures Upsert(side, levels, price, exchange, quantity) == Spliced(levels, k, price, exchange, quantity)
  {
    hide Sum;
    if k > 0 {
      SplicedTail(levels, k, price, exchange, quantity);
      UpsertAt(side, levels[1..], price, exchange, quantity, k - 1);
    } else {
      assert levels[..0] == [] && levels[0..] == levels;
    }
  }

  /** An update keeps the side sorted and free of zero totals. */
  lemma UpsertKeepsOrder(side: Side, levels: seq<Level>, price: real, exchange: Exchange, quantity: real)
    requires SortedLevels(side, levels) && NoZeroTotal(levels)
    ensures SortedLevels(side, Upsert(side, levels, price, exchange, quantity))
    ensures NoZeroTotal(Upsert(side, levels, price, exchange, quantity))
  {
    hide Sum, Upsert;
    var k := Rank(side, levels, price);
    UpsertAt(side, levels, price, exchange, quantity, k);
    var rest := if ListedAt(levels, k, price) then levels[k + 1..] else levels[k..];
    var slots := if ListedAt(levels, k, price) then levels[k].slots else ZEROS;
    SplicedKeepsOrder(side, levels[..k], Level(price, Write(slots, exchange, quantity)), rest);
  }

  lemma SplicedKeepsOrder(side: Side, front: seq<Level>, level: Level, rest: seq<Level>)
    requires SortedLevels(side, front) && NoZeroTotal(front)
    requires SortedLevels(side, rest) && NoZeroTotal(rest)
    requires forall i :: 0 <= i < |front| ==> Before(side, front[i].price, level.price)
    requires forall i :: 0 <= i < |rest| ==> Before(side, level.price, rest[i].price)
    ensures SortedLevels(side, front + Settled(level) + rest)
    ensures NoZeroTotal(front + Settled(level) + rest)
  {
  }

  lemma SlotsAtSettled(level: Level, rest: seq<Level>, price: real)
    ensures SlotsAt(Settled(level) + rest, price)
         == if price == level.price && Sum(level.slots) != 0.0 then level.slots else SlotsAt(rest, price)
  {
    if Sum(level.slots) == 0.0 {
      assert Settled(level) + rest == rest;
    } else {
      assert (Settled(level) + rest)[1..] == rest;
    }
  }

  /** An update changes one slot at one price, and forgets the level when the total is zero. */
  lemma {:induction false} UpsertLookup(side: Side, levels: seq<Level>,
                                        price: real, exchange: Exchange, quantity: real, other: real)
    requires SortedLevels(side, levels)
    ensures var after := Upsert(side, levels, price, exchange, quantity);
            var slots := Write(SlotsAt(levels, price), exchange, quantity);
            SlotsAt(after, other) ==
            if other != price then SlotsAt(levels, other)
            else if Sum(slots) == 0.0 then ZEROS else slots
  {
    var slots := Write(SlotsAt(levels, price), exchange, quantity);
    if levels == [] {
    } else if Before(side, price, levels[0].price) {
      SlotsAtUnlisted(levels, price);
      SlotsAtSettled(Level(price, slots), levels, other);
    } else if levels[0].price == price {
      SlotsAtUnlisted(levels[1..], price);
      SlotsAtSettled(Level(price, slots), levels[1..], other);
    } else {
      UpsertLookup(side, levels[1..], price, exchange, quantity, other);
    }
  }

  /** A sorted side without zero totals is determined by its look-ups. */
  lemma {:induction false} LevelsAreDetermined(side: Side, a: seq<Level>, b: seq<Level>)
    requires SortedLevels(side, a) && SortedLevels(side, b)
    requires NoZeroTotal(a) && NoZeroTotal(b)
    requires forall p :: SlotsAt(a, p) == SlotsAt(b, p)
    ensures a == b
  {
    SumOfZeros(ZEROS);
    if a == [] {
      if b != [] {
        SlotsAtListed(side, b, 0);
      }
    } else {
      var i := NonZeroIsListed(b, a[0].price) by { assert SlotsAt(a, a[0].price) == SlotsAt(b, a[0].price); }
      var j := NonZeroIsListed(a, b[0].price) by { assert SlotsAt(a, b[0].price) == SlotsAt(b, b[0].price); }
      assert i == 0 && j == 0;
      forall p ensures SlotsAt(a[1..], p) == SlotsAt(b[1..], p) {
        if p == a[0].price {
          SlotsAtUnlisted(a[1..], p);
          SlotsAtUnlisted(b[1..], p);
        } else {
          assert SlotsAt(a, p) == SlotsAt(b, p);
        }
      }
      LevelsAreDetermined(side, a[1..], b[1..]);
    }
  }
}
