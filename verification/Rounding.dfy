/** The three ways the prediction code turns an exact amount into a whole number. */
module Rounding {
  import opened Sums

  /** Python's `int(x)`. */
  function Truncate(x: real): int { if x >= 0.0 then x.Floor else -((-x).Floor) }

  /** Python's `round(x)`, and Decimal.quantize's default: to the nearest, ties to the even neighbour. */
  function HalfEven(x: real): int {
    var f := x.Floor;
    var d := x - f as real;
    if d < 0.5 then f else if d > 0.5 then f + 1 else if f % 2 == 0 then f else f + 1
  }

  /** x lies exactly half-way between two whole numbers. */
  predicate Tie(x: real) { x - x.Floor as real == 0.5 }

  /** No whole number is nearer, and an equally near one means the even of the two was taken. */
  lemma HalfEvenIsNearest(x: real, k: int)
    ensures Abs(x - HalfEven(x) as real) <= 0.5
    ensures Abs(x - HalfEven(x) as real) <= Abs(x - k as real)
    ensures k != HalfEven(x) && Abs(x - HalfEven(x) as real) == Abs(x - k as real) ==> Tie(x) && HalfEven(x) % 2 == 0
  {
    var r := HalfEven(x);
    if k < r {
      assert k as real <= r as real - 1.0;
    } else if k > r {
      assert k as real >= r as real + 1.0;
    }
  }

  lemma HalfEvenExact(k: int)
    ensures HalfEven(k as real) == k
  {
  }

  /** Shifting by a whole number shifts the rounding, except that an odd shift sends a tie the other way. */
  lemma HalfEvenShift(x: real, k: int)
    ensures !Tie(x) || k % 2 == 0 ==> HalfEven(x - k as real) == HalfEven(x) - k
    ensures Tie(x) && k % 2 != 0 ==> HalfEven(x - k as real) == HalfEven(x) - k + (if x.Floor % 2 == 0 then 1 else -1)
  {
    assert (x - k as real).Floor == x.Floor - k;
  }
}
