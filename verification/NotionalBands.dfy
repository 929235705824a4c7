/** The notional volume bands client: the sweep as a loop, and the labels its rows end up under. */
module NotionalBands {
  import opened Market
  import opened Reals
  import opened Sweep

  class NotionalVolumeBands {
    const bandValues: seq<real>

    constructor (bandValues: seq<real>)
      ensures this.bandValues == bandValues
    {
      this.bandValues := bandValues;
    }

    /** Bands of both sides, in the order of the configured values; a missing band leaves no row. */
    method Compute(book: Book) returns (ask: seq<Row>, bid: seq<Row>)
      ensures ask == Rows(book.ask, bandValues)
      ensures bid == Rows(book.bid, bandValues)
    {
      ask, bid := [], [];
      for i := 0 to |bandValues|
        invariant ask == Rows(book.ask, bandValues[..i])
        invariant bid == Rows(book.bid, bandValues[..i])
      {
        assert bandValues[..i + 1][..i] == bandValues[..i];
        var band := CalculateBand(book.ask, bandValues[i]);
        if band.Some? {
          ask := ask + [band.value];
        }
        band := CalculateBand(book.bid, bandValues[i]);
        if band.Some? {
          bid := bid + [band.value];
        }
      }
      assert bandValues[..|bandValues|] == bandValues;
    }

    static method CalculateBand(quotes: seq<Quote>, desiredNotional: real) returns (band: Option<Row>)
      ensures band == Band(quotes, desiredNotional)
    {
      hide Times;
      hide Over;
      var cumulatedNotional, cumulatedQuantity := 0.0, 0.0;
      var i := 0;
      while i < |quotes|
        invariant i <= |quotes|
        invariant Walk(quotes, desiredNotional) ==
                  Plus(cumulatedNotional, cumulatedQuantity, Walk(quotes[i..], desiredNotional - cumulatedNotional))
      {
        var quote := quotes[i];
        var quoteNotional := Times(quote.price, quote.quantity);
        assert quotes[i..][0] == quote && quotes[i..][1..] == quotes[i + 1..];
        if cumulatedNotional + quoteNotional <= desiredNotional {
          cumulatedNotional := cumulatedNotional + quoteNotional;
          cumulatedQuantity := cumulatedQuantity + quote.quantity;
        } else {
          var missingNotional := desiredNotional - cumulatedNotional;
          if quote.price == 0.0 {
            return Some(NonFinite);
          }
          var missingQuantity := Over(missingNotional, quote.price);
          cumulatedNotional := cumulatedNotional + missingNotional;
          cumulatedQuantity := cumulatedQuantity + missingQuantity;
          break;
        }
        i := i + 1;
      }
      assert Walk(quotes, desiredNotional) == Swept(cumulatedNotional, cumulatedQuantity);
      if cumulatedNotional >= desiredNotional {
        if cumulatedQuantity == 0.0 {
          return Some(NonFinite);
        }
        return Some(Finite(Quote(Over(cumulatedNotional, cumulatedQuantity), cumulatedQuantity)));
      } else {
        return None;
      }
    }
  }

  /** What has been accumulated before the rest of a walk, added to it. */
  function Plus(notional: real, quantity: real, rest: Swept): Swept {
    match rest
    case Swept(c, x) => Swept(notional + c, quantity + x)
    case Diverged => Diverged
  }

  /** The bands that exist, in the order of the values. */
  function Rows(quotes: seq<Quote>, values: seq<real>): seq<Row> {
    if values == [] then []
    else
      var before := Rows(quotes, values[..|values| - 1]);
      match Band(quotes, values[|values| - 1])
      case Some(row) => before + [row]
      case None => before
  }

  /** The rows are the bands of the values at these places, in their order, and no band is missing. */
  ghost predicate RowsAt(quotes: seq<Quote>, values: seq<real>, rows: seq<Row>, at: seq<nat>) {
    && |at| == |rows|
    && (forall i :: 0 <= i < |at| ==> at[i] < |values| && Band(quotes, values[at[i]]) == Some(rows[i]))
    && (forall i, j :: 0 <= i < j < |at| ==> at[i] < at[j])
    && (forall k: nat :: k < |values| && Band(quotes, values[k]).Some? ==> k in at)
  }

  /** For any configured values, the rows are the bands that exist, each once, in the order of their values. */
  lemma {:induction false} RowsKeepTheOrder(quotes: seq<Quote>, values: seq<real>) returns (at: seq<nat>)
    ensures RowsAt(quotes, values, Rows(quotes, values), at)
  {
    hide Band;
    at := [];
    if values != [] {
      var n := |values| - 1;
      var front := values[..n];
      at := RowsKeepTheOrder(quotes, front);
      assert forall k :: 0 <= k < n ==> front[k] == values[k];
      if Band(quotes, values[n]).Some? {
        at := at + [n];
        assert at[|at| - 1] == n;
      }
    }
  }

  /** Every row stands under its own label: row `i` is the band of `values[i]`. */
  ghost predicate Labelled(quotes: seq<Quote>, values: seq<real>) {
    var rows := Rows(quotes, values);
    && |rows| <= |values|
    && forall i :: 0 <= i < |rows| ==> Band(quotes, values[i]) == Some(rows[i])
  }

  /** No value is followed by a smaller one, unless it is not even positive. */
  ghost predicate Ascending(values: seq<real>) {
    forall i, j :: 0 <= i < j < |values| ==> values[i] <= values[j] || values[i] <= 0.0
  }

  /** On a sane side the band of a value exists exactly when the side's notional reaches it, whatever its sign. */
  lemma BandExists(quotes: seq<Quote>, n: real)
    requires Sane(quotes)
    ensures Band(quotes, n).Some? <==> n <= Notional(quotes)
  {
    hide Times;
    hide Over;
    NotionalNonNegative(quotes);
    if n >= 0.0 {
      WalkIsGreedy(quotes, n);
    } else if quotes != [] {
      WorthNonNegative(quotes);
    }
  }

  lemma {:induction false} RowsOfAvailable(quotes: seq<Quote>, values: seq<real>, k: nat)
    requires k <= |values|
    requires forall i :: 0 <= i < k ==> Band(quotes, values[i]).Some?
    ensures k <= |Rows(quotes, values)| <= |values|
  {
    hide Band;
    if values != [] {
      var front := values[..|values| - 1];
      RowsOfAvailable(quotes, front, if k == |values| then k - 1 else k);
    }
  }

  /** A later band moves up when an earlier one is missing. */
  lemma {:induction false} RowsBeyondGap(quotes: seq<Quote>, values: seq<real>, k: nat, j: nat)
    requires k <= j < |values|
    requires forall i :: 0 <= i < k ==> Band(quotes, values[i]).Some?
    requires Band(quotes, values[j]).Some?
    ensures |Rows(quotes, values)| > k
  {
    hide Band;
    var front := values[..|values| - 1];
    if j == |values| - 1 {
      RowsOfAvailable(quotes, front, k);
    } else {
      RowsBeyondGap(quotes, front, k, j);
    }
  }

  /** Missing bands are only at the tail when the values ascend. */
  lemma {:induction false} AscendingRowsAreLabelled(quotes: seq<Quote>, values: seq<real>)
    requires Sane(quotes) && Ascending(values)
    ensures Labelled(quotes, values)
  {
    if values != [] {
      var n := |values| - 1;
      var front := values[..n];
      AscendingRowsAreLabelled(quotes, front);
      BandExists(quotes, values[n]);
      NotionalNonNegative(quotes);
      if Band(quotes, values[n]).Some? {
        forall i | 0 <= i < n ensures Band(quotes, front[i]).Some? {
          BandExists(quotes, values[i]);
        }
        RowsOfAvailable(quotes, front, n);
      }
    }
  }

  lemma {:induction false} FirstMissing(quotes: seq<Quote>, values: seq<real>, i: nat) returns (k: nat)
    requires i < |values| && Band(quotes, values[i]).None?
    ensures k <= i && Band(quotes, values[k]).None?
    ensures forall j :: 0 <= j < k ==> Band(quotes, values[j]).Some?
  {
    k := 0;
    while Band(quotes, values[k]).Some?
      invariant k <= i
      invariant forall j :: 0 <= j < k ==> Band(quotes, values[j]).Some?
      decreases i - k
    {
      k := k + 1;
    }
  }

  /** Out of order values put some book's rows under the wrong labels. */
  lemma DescendingRowsAreMislabelled(values: seq<real>, i: nat, j: nat) returns (quotes: seq<Quote>)
    requires i < j < |values| && values[i] > values[j] && values[i] > 0.0
    ensures Sane(quotes) && !Labelled(quotes, values)
  {
    var depth := if values[j] > 0.0 then values[j] else 0.0;
    quotes := if depth > 0.0 then [Quote(1.0, depth)] else [];
    assert Notional(quotes) == depth by {
      if depth > 0.0 {
        assert quotes[1..] == [];
      }
    }
    BandExists(quotes, values[i]);
    BandExists(quotes, values[j]);
    var k := FirstMissing(quotes, values, i);
    RowsBeyondGap(quotes, values, k, j);
  }

  /**
   The rows of every book stand under their own labels if and only if the configured values ascend:
   the code does not check their order.
   */
  lemma LabelsAreExact(values: seq<real>)
    ensures (forall quotes :: Sane(quotes) ==> Labelled(quotes, values)) <==> Ascending(values)
  {
    if Ascending(values) {
      forall quotes | Sane(quotes) ensures Labelled(quotes, values) {
        AscendingRowsAreLabelled(quotes, values);
      }
    } else {
      var i, j :| 0 <= i < j < |values| && !(values[i] <= values[j] || values[i] <= 0.0);
      var quotes := DescendingRowsAreMislabelled(values, i, j);
    }
  }
}
