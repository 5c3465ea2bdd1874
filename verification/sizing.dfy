/** Order sizing for a new entry: capped equity over the index price, cut down
    to the market's step size, raised to the market's minimum order size.
    Arithmetic is exact: the floating-point remainder and the final rounding to
    the step's number of decimals are modelled by their exact values. */
module Sizing {
  import opened Arith

  /** Equity beyond this notional amount is never committed to one order. */
  const EquityCap: real := 10000.0

  /** Unrounded size: the capped equity expressed in units of the asset. */
  function RawSize(equity: real, indexPrice: real): real
    requires indexPrice != 0.0
  {
    (if equity < EquityCap then equity else EquityCap) / indexPrice
  }

  /** `x - x % step` with the floored remainder of the source language. */
  function TruncateToStep(x: real, step: real): real
    requires step != 0.0
  {
    (x / step).Floor as real * step
  }

  /** `x` is a whole number of steps. */
  predicate IsStepMultiple(x: real, step: real)
    requires step != 0.0
  {
    (x / step).Floor as real == x / step
  }

  /** Truncation to a positive step lands on a whole number of steps, at most
      `x` and less than one step below it. */
  lemma TruncateToStepBounds(x: real, step: real)
    requires step > 0.0
    ensures IsStepMultiple(TruncateToStep(x, step), step)
    ensures TruncateToStep(x, step) <= x < TruncateToStep(x, step) + step
  {
    var k := (x / step).Floor;
    assert TruncateToStep(x, step) == k as real * step;
    assert (k as real * step) / step == k as real;
    assert (k as real).Floor == k;
    assert (x / step) * step == x;
    BetweenSteps(x, step, x / step, k as real);
  }

  /** A dividend whose quotient lies between two consecutive integers lies
      between the corresponding multiples of the divisor. */
  lemma BetweenSteps(x: real, step: real, q: real, k: real)
    requires step > 0.0 && q * step == x
    requires k <= q < k + 1.0
    ensures k * step <= x < k * step + step
  {
    ScaleBelow(step, k, q);
    BelowNextStep(x, step, q, k);
  }

  lemma BelowNextStep(x: real, step: real, q: real, k: real)
    requires step > 0.0 && q * step == x
    requires q < k + 1.0
    ensures x < k * step + step
  {
    ScaleStrictlyBelow(step, q, k + 1.0);
    assert q * step < (k + 1.0) * step;
    assert x < (k + 1.0) * step;
    assert (k + 1.0) * step == k * step + step;
  }

  /** The length of `k` whole steps. */
  function Steps(k: int, step: real): real
  {
    k as real * step
  }

  /** Every whole number of steps that fits under `x` fits under its truncation. */
  lemma MultiplesBelowTruncation(x: real, step: real)
    requires step > 0.0
    ensures forall k: int :: Steps(k, step) <= x ==> Steps(k, step) <= TruncateToStep(x, step)
  {
    forall k: int | Steps(k, step) <= x
      ensures Steps(k, step) <= TruncateToStep(x, step)
    {
      DivideBelow(k as real * step, x, step);
      assert (k as real * step) / step == k as real;
      assert k <= (x / step).Floor;
      ScaleBelow(step, k as real, (x / step).Floor as real);
    }
  }

  /** The size of an entry order. It is never below the market minimum, and it
      is at least every whole number of steps that fits under the raw size, so
      the truncated size wins whenever it reaches the minimum. When the
      truncated size is the larger one it is a whole number of steps, no more
      than the raw size and less than one step short of it. */
  function OrderSize(equity: real, indexPrice: real, stepSize: real, minOrderSize: real): (size: real)
    requires indexPrice != 0.0 && stepSize != 0.0
    ensures size >= minOrderSize
    ensures stepSize > 0.0 && size != minOrderSize ==>
              && IsStepMultiple(size, stepSize)
              && size <= RawSize(equity, indexPrice)
              && RawSize(equity, indexPrice) - size < stepSize
    ensures stepSize > 0.0 ==>
              forall k: int :: Steps(k, stepSize) <= RawSize(equity, indexPrice) ==> Steps(k, stepSize) <= size
  {
    var truncated := TruncateToStep(RawSize(equity, indexPrice), stepSize);
    var size := if truncated < minOrderSize then minOrderSize else truncated;
    if stepSize > 0.0 then
      TruncateToStepBounds(RawSize(equity, indexPrice), stepSize);
      MultiplesBelowTruncation(RawSize(equity, indexPrice), stepSize);
      size
    else
      size
  }

  /** Equity above the cap sizes exactly as the cap does. */
  lemma OrderSizeCapped(equity: real, indexPrice: real, stepSize: real, minOrderSize: real)
    requires indexPrice != 0.0 && stepSize != 0.0
    requires equity >= EquityCap
    ensures OrderSize(equity, indexPrice, stepSize, minOrderSize) == OrderSize(EquityCap, indexPrice, stepSize, minOrderSize)
  {
  }

  /** More equity never buys a smaller order. */
  lemma OrderSizeMonotone(e1: real, e2: real, indexPrice: real, stepSize: real, minOrderSize: real)
    requires indexPrice > 0.0 && stepSize > 0.0
    requires e1 <= e2
    ensures OrderSize(e1, indexPrice, stepSize, minOrderSize) <= OrderSize(e2, indexPrice, stepSize, minOrderSize)
  {
    var r1, r2 := RawSize(e1, indexPrice), RawSize(e2, indexPrice);
    DivideBelow(if e1 < EquityCap then e1 else EquityCap, if e2 < EquityCap then e2 else EquityCap, indexPrice);
    assert r1 <= r2;
    DivideBelow(r1, r2, stepSize);
    var k1, k2 := (r1 / stepSize).Floor, (r2 / stepSize).Floor;
    assert k1 <= k2;
    ScaleBelow(stepSize, k1 as real, k2 as real);
    assert TruncateToStep(r1, stepSize) <= TruncateToStep(r2, stepSize);
  }

  /** 500 of equity at an index price of 2000, step 0.001, minimum 0.01: 0.25. */
  lemma OrderSizeExample()
    ensures OrderSize(500.0, 2000.0, 0.001, 0.01) == 0.25
  {
    assert RawSize(500.0, 2000.0) == 0.25;
    assert 0.25 / 0.001 == 250.0;
    assert TruncateToStep(0.25, 0.001) == 0.25;
  }
}
