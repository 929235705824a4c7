/** The eight per-exchange quantities kept at one price, as a value, and their sum. */
module Slots {
  import opened Market

  type Slots = s: seq<real> | |s| == EXCHANGE_COUNT
    witness [0.0, 0.0, 0.0, 0.0, 0.0, 0.0, 0.0, 0.0]

  /** The slots of a freshly inserted level. */
  const ZEROS: Slots := [0.0, 0.0, 0.0, 0.0, 0.0, 0.0, 0.0, 0.0]

  /** The slots after one exchange's quantity is overwritten. */
  function Write(slots: Slots, exchange: Exchange, quantity: real): (r: Slots)
    ensures forall e :: r[Index(e)] == if e == exchange then quantity else slots[Index(e)]
  {
    slots[Index(exchange) := quantity]
  }

  function Sum(s: seq<real>): real {
    if s == [] then 0.0 else Sum(s[..|s| - 1]) + s[|s| - 1]
  }

  function ZeroCount(s: seq<real>): nat {
    if s == [] then 0 else ZeroCount(s[..|s| - 1]) + if s[|s| - 1] == 0.0 then 1 else 0
  }

  ghost predicate NonNegative(s: seq<real>) {
    forall i :: 0 <= i < |s| ==> s[i] >= 0.0
  }

  ghost predicate AllZero(s: seq<real>) {
    forall i :: 0 <= i < |s| ==> s[i] == 0.0
  }

  /** Overwriting one slot moves the sum by exactly the difference. */
  lemma {:induction false} SumUpdate(s: seq<real>, i: nat, v: real)
    requires i < |s|
    ensures Sum(s[i := v]) == Sum(s) - s[i] + v
  {
    var n := |s| - 1;
    if i == n {
      assert s[i := v][..n] == s[..n];
    } else {
      assert s[i := v][..n] == s[..n][i := v];
      SumUpdate(s[..n], i, v);
    }
  }

  lemma SumOfWrite(slots: Slots, exchange: Exchange, quantity: real)
    ensures Sum(Write(slots, exchange, quantity)) == Sum(slots) - slots[Index(exchange)] + quantity
  {
    SumUpdate(slots, Index(exchange), quantity);
  }

  lemma AllZeroIsZeros(slots: Slots)
    ensures AllZero(slots) <==> slots == ZEROS
    ensures Sum(ZEROS) == 0.0
  {
    SumOfZeros(ZEROS);
  }

  lemma {:induction false} SumOfZeros(s: seq<real>)
    requires AllZero(s)
    ensures Sum(s) == 0.0
  {
    if s != [] {
      SumOfZeros(s[..|s| - 1]);
    }
  }

  /** A zero total means an empty level, provided no slot is negative. */
  lemma {:induction false} TotalZeroIffEmpty(s: seq<real>)
    requires NonNegative(s)
    ensures Sum(s) >= 0.0
    ensures Sum(s) == 0.0 <==> AllZero(s)
  {
    if s != [] {
      var front := s[..|s| - 1];
      TotalZeroIffEmpty(front);
      assert AllZero(s) ==> AllZero(front);
      assert AllZero(front) && s[|s| - 1] == 0.0 ==> AllZero(s);
    }
  }

  lemma {:induction false} ZeroCountIsFullIffAllZero(s: seq<real>)
    ensures ZeroCount(s) <= |s|
    ensures ZeroCount(s) == |s| <==> AllZero(s)
  {
    if s != [] {
      var front := s[..|s| - 1];
      ZeroCountIsFullIffAllZero(front);
      assert AllZero(s) ==> AllZero(front);
      assert AllZero(front) && s[|s| - 1] == 0.0 ==> AllZero(s);
    }
  }
}
