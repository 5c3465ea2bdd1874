# better-crypto: the mean-reversion decision engine, in Dafny

This project models the decision core of the better-crypto trading bot and the
small `fib` function that ships beside it.

The bot trades dYdX perpetual markets with a mean-reversion strategy. On every
cycle, and for each market in turn, it fetches the market's parameters
(`stepSize`, `minOrderSize`, `indexPrice`), the order book, the open LIMIT buy
and sell orders, the open positions and the recent closes. Then it decides which
orders to place or cancel:

- **No long position.** It buys at the best bid with a post-only LIMIT order when
  the price is more than `num_std` standard deviations below the rolling mean,
  unless a buy order is already open.
- **A long position that is dust** (smaller than the market minimum). It tops the
  position up with a BUY of exactly the minimum size. That order replaces the
  open buy order.
- **A long position that is not dust.** It offers the whole position post-only
  at the best ask when the ask exceeds `entryPrice · take_profit_multiplier`,
  unless a sell order is already open.
- **Stop-loss, checked independently of the two branches above.** When the ask
  falls below `entryPrice · stop_loss_multiplier`, it cancels the open buy order,
  then the open sell order. Then it sells the whole position with a fill-or-kill
  MARKET order priced at the eleventh bid.

In the model, everything the cycle fetches is one immutable `Snapshot`, and the
exchange calls are returned as a list of `Action`s (`Place(request)` or
`Cancel(id)`) in the order the bot issues them. Prices, sizes and multipliers
are exact `real`s. The rolling mean and standard deviation are inputs
(`PriceStats`). The wall-clock time is a parameter `now`, and every order
expires at `now + 3600`.

Modules (one per component):

- `Wrappers`: `Option`.
- `Arith`: order facts for multiplying and dividing reals by a positive factor.
- `Fibonacci`: `fib`, plus a linear-time loop proved equal to it.
- `Book`: order-book levels and the mid-market price.
- `PriceHistory`: close prices taken from a page of newest-first candles.
- `Positions`: open positions, and their split into `long` and `short`.
- `Signals`: strategy parameters and the entry, take-profit and stop-loss comparisons.
- `Sizing`: the size of an entry order.
- `Orders`: order requests and actions.
- `MeanReversion`: the snapshot, the per-market pass `Reconcile`, and the cycle over markets.

Behaviour of the code worth knowing, which the model keeps:

- The stop-loss cancels only the sell order that was open when the pass
  started; a take-profit sell placed earlier in the same pass is not cancelled.
  `SingleExitPerPass` shows the two cannot meet when
  `take_profit_multiplier >= stop_loss_multiplier`, which holds for the
  defaults 1.001 and 0.98.
- The dust top-up issues no separate cancel. It passes the open buy order's id
  as `cancel_id` of the new order, which is a replace.
- The strategy has no error handling. An empty book side, a missing eleventh
  bid, or a zero index price or step size raises and ends the whole cycle, and
  a negative step size is not rejected. The model states exactly these demands
  as the precondition `CanDecide`.
- The account (equity and position id) is read once, when the bot is
  constructed (bot.py:93), and never refreshed, so every snapshot's `account`
  is that value.

The source computes `size - size % step` in floating point and then rounds to
the step's number of decimals. The model uses the exact value,
`floor(size / step) · step`, which is what the source language's floored `%`
gives on exact numbers; a whole multiple of a step with K decimals already has
at most K decimals, so the rounding is the identity there. In binary floating
point the two can differ by a whole step: for a raw size of 0.25 and a step of
0.001, `0.25 % 0.001` evaluates to about 0.000999999999999995, so the source
rounds 0.249000… to 0.249 and submits "0.249", where the model gives 0.25.

## Model

| member | source | states |
|---|---|---|
| `Fibonacci.FibAddition` | src/better_crypto/better_crypto.py:4-6 | the addition law `fib(m+n+1) = fib(m+1)·fib(n+1) + fib(m)·fib(n)` for all `m, n >= 0` (proved by induction on `n`) |
| `Fibonacci.FibNonNegative` | src/better_crypto/better_crypto.py:4-6 | `fib(n) >= 0` for every `n >= 0` (proved by induction) |
| `Fibonacci.FibMonotone` | src/better_crypto/better_crypto.py:4-6 | `fib(n) <= fib(n+1)` for every `n >= 0` |
| `Fibonacci.FibIterative` | src/better_crypto/better_crypto.py:4-6 | a two-accumulator loop returns exactly the recursive `fib(n)` for every integer `n`, negative ones included |
| `Book.MidPrice` | src/better_crypto/bot.py:171-174 | `bid + (ask - bid)·0.5` is the average `(bid + ask)/2`, equidistant from both quotes, and lies in `[bid, ask]` whenever `bid <= ask` |
| `PriceHistory.ReversedCloses` | src/better_crypto/bot.py:121-122 | the projection has one close per row, and position `i` holds the close of row `n-1-i` (the rows reversed) |
| `PriceHistory.RecentCloses` | src/better_crypto/bot.py:118-122 | the window has `min(num_samples, rows)` closes, those of the first `num_samples` rows in reverse order, so the newest close is last |
| `Positions.Select` | src/better_crypto/bot.py:166-169 | the filter keeps only positions of the requested side, each of them exactly as often as it occurs in the input, and is never longer than the input |
| `Positions.SelectConcat` | src/better_crypto/bot.py:166-169 | filtering distributes over concatenation, so the kept positions stay in their original relative order |
| `Positions.SplitPositions` | src/better_crypto/bot.py:162-169 | `long` holds exactly the LONG positions and `short` exactly the SHORT ones (with multiplicity); a position with any other side label is in neither list; together the lists are no longer than the input |
| `Signals.SignalsStrictAtThreshold` | src/better_crypto/bot.py:128-135 | a price exactly at `mean - num_std·std`, at `entry·tp` or at `entry·sl` fires no signal: all three comparisons are strict |
| `Signals.SignalsMonotone` | src/better_crypto/bot.py:128-135 | entry and stop-loss keep firing at every lower price, take-profit at every higher price |
| `Signals.EntryBelowMean` | src/better_crypto/bot.py:128-129 | with `num_std >= 0` and `std >= 0`, an entry is only signalled strictly below the mean |
| `Signals.ExitSignalsExclusive` | src/better_crypto/bot.py:131-135 | with a positive entry price and `take_profit_multiplier >= stop_loss_multiplier`, take-profit and stop-loss never hold for the same price |
| `Signals.DefaultExitSignalsExclusive` | src/better_crypto/bot.py:36-41 | with the constructor defaults 1.001 and 0.98, take-profit and stop-loss never hold together for a positive entry price |
| `Sizing.TruncateToStepBounds` | src/better_crypto/bot.py:222 | `x - x % step` with a positive step is a whole number of steps, at most `x`, and less than one step below `x` |
| `Sizing.OrderSize` | src/better_crypto/bot.py:219-224 | the size is never below `minOrderSize`, and with a positive step it is at least every whole number of steps that fits under the raw size, so it is exactly `max(truncated, minOrderSize)`; when the truncated size wins the `max`, it is a whole multiple of `stepSize`, at most the raw size, and less than one step below it |
| `Sizing.OrderSizeCapped` | src/better_crypto/bot.py:220 | any equity of at least 10000 gives the same size as equity 10000 |
| `Sizing.OrderSizeMonotone` | src/better_crypto/bot.py:219-224 | with a positive index price and step size, more equity never gives a smaller order |
| `Sizing.OrderSizeExample` | src/better_crypto/bot.py:219-224 | equity 500, index price 2000, step 0.001 and minimum 0.01 give size 0.25 |
| `MeanReversion.EntryActions` | src/better_crypto/bot.py:216-237 | without a long position: at most one action, and one exactly when the entry signal holds on the best bid and no buy order is open; that action is a post-only LIMIT BUY at the best bid, of the computed size (≥ minimum), with fee 0.0005 and no `cancel_id` |
| `MeanReversion.ExitActions` | src/better_crypto/bot.py:239-266 | with a long position, at most one LIMIT order. A dust position gets a post-only BUY of exactly `minOrderSize` at the best bid, carrying the open buy order's id as `cancel_id`. Otherwise a post-only SELL of the full `sumOpen` at the best ask is placed exactly when take-profit holds and no sell order is open |
| `MeanReversion.StopActions` | src/better_crypto/bot.py:267-288 | no action without a stop-loss. With one: a cancel of the open buy order (if any), then a cancel of the open sell order (if any), then one MARKET SELL with `post_only` false, fee 0.002, FOK and no `cancel_id`, priced at the eleventh bid, for the held `sumOpen` |
| `MeanReversion.Reconcile` | src/better_crypto/bot.py:216-288 | one pass emits at most four actions, and at most one without a long position; every placement carries the market, the account's position id and an expiry one hour after `now` |
| `MeanReversion.StopLossGovernsMarketExit` | src/better_crypto/bot.py:264-288 | cancellations and MARKET orders occur only when the pass has a long position and the stop-loss fires; a stop-loss always ends the pass with a MARKET SELL of the whole position |
| `MeanReversion.CancelsPrecedeMarketExit` | src/better_crypto/bot.py:267-288 | every cancellation comes before the market exit, and nothing follows the market exit |
| `MeanReversion.EntryIsIdempotent` | src/better_crypto/bot.py:194-218 | without a long position, a pass that finds a buy order open emits nothing, so a repeat pass after the entry order was acknowledged adds no second entry |
| `MeanReversion.DustNeverLimitSells` | src/better_crypto/bot.py:254-266 | a dust position starts the pass with a BUY of the minimum size, and the only sell such a pass can emit is the stop-loss market exit (the dust and take-profit branches are exclusive) |
| `MeanReversion.StopSizeIgnoresTopUp` | src/better_crypto/bot.py:242-288 | when a dust top-up and a stop-loss happen in the same pass, the market exit sells the original `sumOpen`, which is below the top-up size |
| `MeanReversion.SingleExitPerPass` | src/better_crypto/bot.py:264-288 | with a positive entry price and `take_profit_multiplier >= stop_loss_multiplier`, a pass never emits two sell orders |
| `MeanReversion.Cycle` | src/better_crypto/bot.py:180-189 | one cycle over the markets emits at most four actions per market |
| `MeanReversion.CycleStaysInItsMarkets` | src/better_crypto/bot.py:180-189 | every order placed during a cycle is for one of the cycle's markets |

## Left out

- Statistics: `statistics.mean` and `statistics.stdev` (bot.py:124-126) need floating point and a square root. The mean and standard deviation are inputs to the signals.
- Fetching: the candle download into pandas and `Client` construction (bot.py:44-94), the Coinbase HTTP fetch (bot.py:118-120), and the market, order-book, order and position fetches (bot.py:137-165, 187-214). These are network calls. Their results are fields of the snapshot. The orders fetched by `get_buy_orders`/`get_sell_orders` are never read by the strategy.
- `get_account` (bot.py:96-101): its `sys.exit` on missing data is process control. The account is a snapshot input.
- History load and save (bot.py:103-116): file I/O, and it reads an attribute that is never set.
- Submission: order submission and cancellation are returned as actions, not performed. Exchange acknowledgements and fills are not modelled.
- Expiry time: `time.time()` is the parameter `now`. The source reads the clock once per order; the model uses one instant per cycle, shared by every market's pass.
- Position sides: the side label is decoded into `Long` ("LONG"), `Short` ("SHORT") or `OtherSide` (any other label); the string comparison itself is not modelled, and `OtherSide` never carries "LONG" or "SHORT".
- Price and size strings: the conversions between strings and floats are not modelled. The source passes prices and `sumOpen` through as strings; the model keeps their values.
- Sizing.OrderSize: computes the exact truncation; the source's floating-point `%` and `round` can lose a whole step when the raw size is an exact multiple of a decimal step, so the source's size can be one step below the model's.
- Sizing.OrderSizeExample: 0.25 is the exact value; the source as written submits "0.249" for these inputs, because of the floating-point remainder described above.
- The bot's `__main__` block, the web dashboard (app.py, routes.py, __main__.py, main/views.py and its test), config loading (utils/common.py), upgrade_requirements.py and setup.py: UI, packaging and tooling outside the strategy.
- `MeanReversion.Reconcile`: an out-of-range book index, or a division by a zero index price or step size, raises an exception in the source. The model states these as the precondition `CanDecide` rather than as an error result.
- `PriceHistory.RecentCloses`: takes `num_samples` as a natural number; the source's behaviour for a negative count (slicing from the end) is not modelled.
- `MeanReversion.Cycle`: models the market loop as the concatenation of the per-market passes. That is all the source does; the source does not isolate a failing market from the others.
