/** Entry, take-profit and stop-loss signals of the mean-reversion strategy.
    The rolling mean and standard deviation are inputs. */
module Signals {
  import opened Arith

  /** Strategy parameters of the bot's constructor. */
  datatype Params = Params(numSamples: nat, numStd: real, takeProfitMultiplier: real, stopLossMultiplier: real)

  /** The constructor's defaults: 20 samples, 3 standard deviations, take profit
      at +0.1 %, stop loss at -2 %. */
  const Defaults: Params := Params(20, 3.0, 1.001, 0.98)

  datatype PriceStats = PriceStats(mean: real, std: real)

  predicate EntrySignal(p: Params, stats: PriceStats, price: real)
  {
    price < stats.mean - p.numStd * stats.std
  }

  predicate TakeProfitSignal(p: Params, entryPrice: real, price: real)
  {
    entryPrice * p.takeProfitMultiplier < price
  }

  predicate StopSignal(p: Params, entryPrice: real, price: real)
  {
    price < entryPrice * p.stopLossMultiplier
  }

  /** All three comparisons are strict: a price exactly on a threshold fires nothing. */
  lemma SignalsStrictAtThreshold(p: Params, stats: PriceStats, entryPrice: real)
    ensures !EntrySignal(p, stats, stats.mean - p.numStd * stats.std)
    ensures !TakeProfitSignal(p, entryPrice, entryPrice * p.takeProfitMultiplier)
    ensures !StopSignal(p, entryPrice, entryPrice * p.stopLossMultiplier)
  {
  }

  /** Entry and stop-loss fire on every lower price once they fire on a price;
      take-profit fires on every higher one. */
  lemma SignalsMonotone(p: Params, stats: PriceStats, entryPrice: real, price: real, other: real)
    ensures other <= price && EntrySignal(p, stats, price) ==> EntrySignal(p, stats, other)
    ensures other <= price && StopSignal(p, entryPrice, price) ==> StopSignal(p, entryPrice, other)
    ensures price <= other && TakeProfitSignal(p, entryPrice, price) ==> TakeProfitSignal(p, entryPrice, other)
  {
  }

  /** With a non-negative deviation band, an entry is only signalled strictly below the mean. */
  lemma EntryBelowMean(p: Params, stats: PriceStats, price: real)
    requires p.numStd >= 0.0 && stats.std >= 0.0
    requires EntrySignal(p, stats, price)
    ensures price < stats.mean
  {
    assert p.numStd * stats.std >= 0.0;
  }

  /** For a positive entry price and a take-profit multiplier no smaller than the
      stop-loss multiplier, no price is both a take-profit and a stop-loss. */
  lemma {:induction false} ExitSignalsExclusive(p: Params, entryPrice: real, price: real)
    requires entryPrice > 0.0
    requires p.stopLossMultiplier <= p.takeProfitMultiplier
    ensures !(TakeProfitSignal(p, entryPrice, price) && StopSignal(p, entryPrice, price))
  {
    ScaleBelow(entryPrice, p.stopLossMultiplier, p.takeProfitMultiplier);
  }

  /** The default parameters satisfy the hypothesis of ExitSignalsExclusive. */
  lemma DefaultExitSignalsExclusive(entryPrice: real, price: real)
    requires entryPrice > 0.0
    ensures !(TakeProfitSignal(Defaults, entryPrice, price) && StopSignal(Defaults, entryPrice, price))
  {
    ExitSignalsExclusive(Defaults, entryPrice, price);
  }
}
