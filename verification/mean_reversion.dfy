/** One reconciliation pass of the mean-reversion strategy for one market.
    The exchange state the bot fetches at the start of the pass is an explicit
    snapshot, and the calls it would make are returned as a list of actions. */
module MeanReversion {
  import opened Wrappers
  import opened Book
  import opened Positions
  import opened Signals
  import opened Sizing
  import opened Orders

  datatype MarketInfo = MarketInfo(stepSize: real, minOrderSize: real, indexPrice: real)

  datatype Account = Account(equity: real, positionId: string)

  /** An open LIMIT order as listed by the exchange; only its id is used. */
  datatype OpenOrder = OpenOrder(id: string)

  /** Everything one pass reads: the market, its book and statistics, the
      account, the open positions and the newest open LIMIT buy and sell. */
  datatype Snapshot = Snapshot(
    market: string,
    info: MarketInfo,
    book: OrderBook,
    stats: PriceStats,
    positions: seq<Position>,
    buyOrder: Option<OpenOrder>,
    sellOrder: Option<OpenOrder>,
    account: Account,
    config: Params)

  /** Book depth the stop-loss exit prices against: the eleventh bid. */
  const StopDepth: nat := 10

  function Longs(s: Snapshot): seq<Position>
  {
    SplitPositions(s.positions).long
  }

  predicate HasLong(s: Snapshot)
  {
    |Longs(s)| > 0
  }

  /** The long position the strategy manages: the first one listed. */
  function Held(s: Snapshot): Position
    requires HasLong(s)
  {
    Longs(s)[0]
  }

  /** The held position is smaller than the market's minimum order size. */
  predicate IsDust(s: Snapshot)
    requires HasLong(s)
  {
    Held(s).sumOpen < s.info.minOrderSize
  }

  predicate EntryFires(s: Snapshot)
    requires |s.book.bids| > 0
  {
    EntrySignal(s.config, s.stats, s.book.bids[0].price)
  }

  predicate TakeProfitFires(s: Snapshot)
    requires HasLong(s) && |s.book.asks| > 0
  {
    TakeProfitSignal(s.config, Held(s).entryPrice, s.book.asks[0].price)
  }

  predicate StopFires(s: Snapshot)
    requires HasLong(s) && |s.book.asks| > 0
  {
    StopSignal(s.config, Held(s).entryPrice, s.book.asks[0].price)
  }

  /** What the pass touches on the way it takes: the best bid without a long
      position, and the sizing divisors when it enters; with a long position the
      best ask, the best bid for a dust top-up and the eleventh bid for a
      stop-loss exit. Anything missing raises in the bot. */
  predicate CanDecide(s: Snapshot)
  {
    if !HasLong(s) then
      && |s.book.bids| > 0
      && (EntryFires(s) && s.buyOrder.None? ==> s.info.indexPrice != 0.0 && s.info.stepSize != 0.0)
    else
      && |s.book.asks| > 0
      && (IsDust(s) ==> |s.book.bids| > 0)
      && (StopFires(s) ==> |s.book.bids| > StopDepth)
  }

  function IdOf(o: Option<OpenOrder>): Option<string>
  {
    match o
    case None => None
    case Some(order) => Some(order.id)
  }

  function CancelIfOpen(o: Option<OpenOrder>): seq<Action>
  {
    match o
    case None => []
    case Some(order) => [Cancel(order.id)]
  }

  /** The post-only LIMIT BUY that opens a position at the best bid. */
  function EntryOrder(s: Snapshot, now: real): OrderRequest
    requires |s.book.bids| > 0 && s.info.indexPrice != 0.0 && s.info.stepSize != 0.0
  {
    OrderRequest(s.account.positionId, s.market, Buy, Limit, true,
                 OrderSize(s.account.equity, s.info.indexPrice, s.info.stepSize, s.info.minOrderSize),
                 s.book.bids[0].price, MakerFee, None, None, now + ExpirySeconds)
  }

  /** The post-only LIMIT SELL of the whole held position at the best ask. */
  function TakeProfitOrder(s: Snapshot, now: real): OrderRequest
    requires HasLong(s) && |s.book.asks| > 0
  {
    OrderRequest(s.account.positionId, s.market, Sell, Limit, true, Held(s).sumOpen,
                 s.book.asks[0].price, MakerFee, None, None, now + ExpirySeconds)
  }

  /** The take-profit request turned into a BUY of the minimum order size at the
      best bid, replacing the open buy order when there is one. */
  function TopUpOrder(s: Snapshot, now: real): OrderRequest
    requires HasLong(s) && |s.book.asks| > 0 && |s.book.bids| > 0
  {
    TakeProfitOrder(s, now).(side := Buy, size := s.info.minOrderSize,
                             price := s.book.bids[0].price, cancelId := IdOf(s.buyOrder))
  }

  /** The fill-or-kill MARKET SELL of the whole held position, priced at the
      eleventh bid. */
  function StopOrder(s: Snapshot, now: real): OrderRequest
    requires HasLong(s) && |s.book.bids| > StopDepth
  {
    OrderRequest(s.account.positionId, s.market, Sell, Market, false, Held(s).sumOpen,
                 s.book.bids[StopDepth].price, TakerFee, Some(FillOrKill), None, now + ExpirySeconds)
  }

  /** The request properties every placement shares. */
  predicate Stamped(s: Snapshot, now: real, a: Action)
  {
    a.Place? ==>
      && a.request.market == s.market
      && a.request.positionId == s.account.positionId
      && a.request.expiration == now + ExpirySeconds
  }

  predicate AllStamped(s: Snapshot, now: real, actions: seq<Action>)
  {
    forall i :: 0 <= i < |actions| ==> Stamped(s, now, actions[i])
  }

  lemma AllStampedConcat(s: Snapshot, now: real, a: seq<Action>, b: seq<Action>)
    requires AllStamped(s, now, a) && AllStamped(s, now, b)
    ensures AllStamped(s, now, a + b)
  {
    forall i | 0 <= i < |a + b|
      ensures Stamped(s, now, (a + b)[i])
    {
      if i >= |a| {
        assert (a + b)[i] == b[i - |a|];
      } else {
        assert (a + b)[i] == a[i];
      }
    }
  }

  /** No long position: enter on the signal unless a buy order is already open.
      At most one action, and one exactly when the signal holds and no buy
      order is open: a post-only LIMIT BUY of the computed size at the best bid. */
  function EntryActions(s: Snapshot, now: real): (actions: seq<Action>)
    requires !HasLong(s) && CanDecide(s)
    ensures |actions| <= 1
    ensures |actions| == 1 <==> EntryFires(s) && s.buyOrder.None?
    ensures |actions| == 1 ==>
              && actions[0].Place?
              && IsPostOnlyLimit(actions[0].request, Buy)
              && actions[0].request.price == s.book.bids[0].price
              && actions[0].request.size == OrderSize(s.account.equity, s.info.indexPrice, s.info.stepSize, s.info.minOrderSize)
              && actions[0].request.size >= s.info.minOrderSize
              && actions[0].request.cancelId.None?
    ensures AllStamped(s, now, actions)
  {
    if EntryFires(s) && s.buyOrder.None? then [Place(EntryOrder(s, now))] else []
  }

  /** Long position: a dust position is topped up with a post-only BUY of exactly
      the minimum size at the best bid, replacing the open buy order; otherwise
      the whole position is offered post-only at the best ask when take profit
      holds and no sell order is open. Never a cancellation or a market order. */
  function ExitActions(s: Snapshot, now: real): (actions: seq<Action>)
    requires HasLong(s) && CanDecide(s)
    ensures |actions| <= 1
    ensures forall i :: 0 <= i < |actions| ==> actions[i].Place? && actions[i].request.orderType == Limit
    ensures AllStamped(s, now, actions)
    ensures IsDust(s) ==>
              && |actions| == 1
              && IsPostOnlyLimit(actions[0].request, Buy)
              && actions[0].request.size == s.info.minOrderSize
              && actions[0].request.price == s.book.bids[0].price
              && actions[0].request.cancelId == IdOf(s.buyOrder)
    ensures !IsDust(s) ==> (|actions| == 1 <==> TakeProfitFires(s) && s.sellOrder.None?)
    ensures !IsDust(s) && |actions| == 1 ==>
              && IsPostOnlyLimit(actions[0].request, Sell)
              && actions[0].request.size == Held(s).sumOpen
              && actions[0].request.price == s.book.asks[0].price
              && actions[0].request.cancelId.None?
  {
    if IsDust(s) then [Place(TopUpOrder(s, now))]
    else if TakeProfitFires(s) && s.sellOrder.None? then [Place(TakeProfitOrder(s, now))]
    else []
  }

  /** Long position, stop-loss: cancel the open buy, then the open sell, then sell
      the whole position (not the top-up size) with a fill-or-kill MARKET order
      priced at the eleventh bid, which ends the list. */
  function StopActions(s: Snapshot, now: real): (actions: seq<Action>)
    requires HasLong(s) && CanDecide(s)
    ensures !StopFires(s) ==> actions == []
    ensures StopFires(s) ==>
              && |actions| >= 1
              && actions[..|actions| - 1] == CancelIfOpen(s.buyOrder) + CancelIfOpen(s.sellOrder)
              && var exit := actions[|actions| - 1];
              && exit.Place?
              && exit.request.side == Sell
              && exit.request.orderType == Market
              && !exit.request.postOnly
              && exit.request.size == Held(s).sumOpen
              && exit.request.price == s.book.bids[StopDepth].price
              && exit.request.limitFee == TakerFee
              && exit.request.timeInForce == Some(FillOrKill)
              && exit.request.cancelId.None?
    ensures forall i :: 0 <= i < |actions| - 1 ==> actions[i].Cancel?
    ensures |actions| <= 3
    ensures AllStamped(s, now, actions)
  {
    if StopFires(s) then
      var cancels := CancelIfOpen(s.buyOrder) + CancelIfOpen(s.sellOrder);
      var actions := cancels + [Place(StopOrder(s, now))];
      assert actions[..|actions| - 1] == cancels;
      actions
    else []
  }

  /** One pass over one market: the entry decision without a long position, the
      dust or take-profit decision followed by the stop-loss decision with one.
      At most one action without a position, at most four with one, and every
      order tagged with the market, the account's position id and the expiry. */
  function Reconcile(s: Snapshot, now: real): (actions: seq<Action>)
    requires CanDecide(s)
    ensures |actions| <= 4
    ensures !HasLong(s) ==> |actions| <= 1
    ensures AllStamped(s, now, actions)
  {
    if !HasLong(s) then EntryActions(s, now)
    else
      var exit, stop := ExitActions(s, now), StopActions(s, now);
      AllStampedConcat(s, now, exit, stop);
      exit + stop
  }

  /** With a long position the pass is the exit decision followed by the stop-loss decision. */
  lemma ReconcileSplit(s: Snapshot, now: real)
    requires CanDecide(s) && HasLong(s)
    ensures var actions, exit := Reconcile(s, now), ExitActions(s, now);
            && |actions| == |exit| + |StopActions(s, now)|
            && (forall i :: 0 <= i < |exit| ==> actions[i] == exit[i])
            && (forall i :: |exit| <= i < |actions| ==> actions[i] == StopActions(s, now)[i - |exit|])
  {
  }

  /** Cancellations and the market exit happen only on a stop-loss, and a
      stop-loss always ends the pass with a market sell of the whole position. */
  lemma StopLossGovernsMarketExit(s: Snapshot, now: real)
    requires CanDecide(s)
    ensures var actions := Reconcile(s, now);
            && (forall i :: 0 <= i < |actions| && (actions[i].Cancel? || IsMarketPlacement(actions[i])) ==>
                  HasLong(s) && StopFires(s))
            && (HasLong(s) && StopFires(s) ==>
                  && |actions| >= 1
                  && IsMarketPlacement(actions[|actions| - 1])
                  && actions[|actions| - 1].request.side == Sell
                  && actions[|actions| - 1].request.size == Held(s).sumOpen)
  {
    if HasLong(s) {
      ReconcileSplit(s, now);
    }
  }

  /** Every cancellation comes before the market exit, and nothing follows the exit. */
  lemma CancelsPrecedeMarketExit(s: Snapshot, now: real)
    requires CanDecide(s)
    ensures var actions := Reconcile(s, now);
            && (forall i :: 0 <= i < |actions| - 1 ==> !IsMarketPlacement(actions[i]))
            && (forall i, j :: 0 <= i < |actions| && 0 <= j < |actions| && actions[i].Cancel? && IsMarketPlacement(actions[j]) ==> i < j)
  {
    if HasLong(s) {
      ReconcileSplit(s, now);
    }
  }

  /** Without a long position, a pass that finds a buy order open emits nothing;
      in particular a second pass after the entry order is acknowledged adds no
      second entry. */
  lemma EntryIsIdempotent(s: Snapshot, now: real, id: string)
    requires CanDecide(s) && !HasLong(s)
    ensures CanDecide(s.(buyOrder := Some(OpenOrder(id))))
    ensures Reconcile(s.(buyOrder := Some(OpenOrder(id))), now) == []
  {
    var s' := s.(buyOrder := Some(OpenOrder(id)));
    assert Longs(s') == Longs(s);
  }

  /** A dust position is topped up, never offered for sale with a limit order:
      the only sell a dust pass can emit is the stop-loss market exit. */
  lemma DustNeverLimitSells(s: Snapshot, now: real)
    requires CanDecide(s) && HasLong(s) && IsDust(s)
    ensures var actions := Reconcile(s, now);
            && |actions| >= 1
            && actions[0].Place? && actions[0].request.side == Buy
            && actions[0].request.size == s.info.minOrderSize
            && forall i :: 0 <= i < |actions| && IsSellPlacement(actions[i]) ==> IsMarketPlacement(actions[i])
  {
    ReconcileSplit(s, now);
  }

  /** When a dust top-up and a stop-loss happen in the same pass, the market exit
      still sells the size the position had, not the top-up size. */
  lemma StopSizeIgnoresTopUp(s: Snapshot, now: real)
    requires CanDecide(s) && HasLong(s) && IsDust(s) && StopFires(s)
    ensures var actions := Reconcile(s, now);
            && |actions| >= 2
            && actions[0].request.size == s.info.minOrderSize
            && actions[|actions| - 1].request.size == Held(s).sumOpen
            && actions[|actions| - 1].request.size < actions[0].request.size
  {
    ReconcileSplit(s, now);
  }

  /** When the take-profit multiplier is at least the stop-loss multiplier (as
      with the defaults) and the entry price is positive, a pass never emits both
      a limit sell and a market sell. */
  lemma SingleExitPerPass(s: Snapshot, now: real)
    requires CanDecide(s) && HasLong(s)
    requires Held(s).entryPrice > 0.0
    requires s.config.stopLossMultiplier <= s.config.takeProfitMultiplier
    ensures AtMostOneSell(Reconcile(s, now))
  {
    var exit, stop := ExitActions(s, now), StopActions(s, now);
    assert Reconcile(s, now) == exit + stop;
    if StopFires(s) {
      ExitSignalsExclusive(s.config, Held(s).entryPrice, s.book.asks[0].price);
      assert forall i :: 0 <= i < |exit| ==> !IsSellPlacement(exit[i]);
      assert forall i :: 0 <= i < |stop| - 1 ==> !IsSellPlacement(stop[i]);
      OneSellAfterNone(exit, stop);
    } else {
      assert exit + stop == exit;
    }
  }

  /** Prefixing actions without sells to a list whose sells are confined to its
      last element leaves at most one sell. */
  lemma OneSellAfterNone(a: seq<Action>, b: seq<Action>)
    requires forall i :: 0 <= i < |a| ==> !IsSellPlacement(a[i])
    requires forall i :: 0 <= i < |b| - 1 ==> !IsSellPlacement(b[i])
    ensures AtMostOneSell(a + b)
  {
    var c := a + b;
    forall i | 0 <= i < |c| && IsSellPlacement(c[i])
      ensures i == |c| - 1
    {
      if i >= |a| {
        assert c[i] == b[i - |a|];
      }
    }
  }

  /** One cycle: every market's pass, in the order the markets are listed, at
      most four actions per market. */
  function Cycle(markets: seq<Snapshot>, now: real): (actions: seq<Action>)
    requires forall k :: 0 <= k < |markets| ==> CanDecide(markets[k])
    ensures |actions| <= 4 * |markets|
  {
    if |markets| == 0 then [] else Reconcile(markets[0], now) + Cycle(markets[1..], now)
  }

  /** The market identifiers of a cycle, in order. */
  function MarketIds(markets: seq<Snapshot>): seq<string>
  {
    if |markets| == 0 then [] else [markets[0].market] + MarketIds(markets[1..])
  }

  /** Every order placed in `actions` is for one of the markets `ids`. */
  predicate PlacesOnlyIn(actions: seq<Action>, ids: seq<string>)
  {
    forall i :: 0 <= i < |actions| && actions[i].Place? ==> actions[i].request.market in ids
  }

  /** Every order a cycle places belongs to one of the cycle's markets. */
  lemma {:induction false} CycleStaysInItsMarkets(markets: seq<Snapshot>, now: real)
    requires forall k :: 0 <= k < |markets| ==> CanDecide(markets[k])
    ensures PlacesOnlyIn(Cycle(markets, now), MarketIds(markets))
  {
    if |markets| > 0 {
      var first, rest := Reconcile(markets[0], now), Cycle(markets[1..], now);
      CycleStaysInItsMarkets(markets[1..], now);
      ReconcileStaysInItsMarket(markets[0], now);
      PlacementsOfConcat(first, rest, markets[0].market, MarketIds(markets[1..]));
    }
  }

  lemma ReconcileStaysInItsMarket(s: Snapshot, now: real)
    requires CanDecide(s)
    ensures PlacesOnlyIn(Reconcile(s, now), [s.market])
  {
    var actions := Reconcile(s, now);
    assert AllStamped(s, now, actions);
  }

  lemma PlacementsOfConcat(first: seq<Action>, rest: seq<Action>, id: string, ids: seq<string>)
    requires PlacesOnlyIn(first, [id]) && PlacesOnlyIn(rest, ids)
    ensures PlacesOnlyIn(first + rest, [id] + ids)
  {
    var actions := first + rest;
    forall i | 0 <= i < |actions| && actions[i].Place?
      ensures actions[i].request.market in [id] + ids
    {
      if i >= |first| {
        assert actions[i] == rest[i - |first|];
      } else {
        assert actions[i] == first[i];
      }
    }
  }
}
