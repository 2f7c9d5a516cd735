/** The perpetuals venue of `src/services/hyperliquid.ts`: a market order is
    emulated by one immediate-or-cancel limit order priced 1% through the mid
    of the top of book, with the size floored to the asset's size decimals.

    Prices and sizes are exact rationals (`real`); the venue's info and
    exchange endpoints are parameters. */
module Hyperliquid {
  import opened Common

  const BUY_SLIPPAGE: real := 1.01
  const SELL_SLIPPAGE: real := 0.99
  const PRICE_DECIMALS: nat := 6

  const BOOK_UNAVAILABLE: string := "Could not fetch order book"
  const ORDER_RESTING: string := "Order resting (not filled immediately)"
  const ORDER_NOT_FILLED: string := "Order not filled"
  /** The TypeError `'filled' in undefined` raises when no status came back. */
  const NO_STATUS: string := "Cannot use 'in' operator to search for 'filled' in undefined"

  datatype Level = Level(px: real, sz: real, n: nat)
  /** `levels[0]` are the bids and `levels[1]` the asks, best first. */
  datatype L2Book = L2Book(coin: string, levels: seq<seq<Level>>)
  datatype AssetInfo = AssetInfo(name: string, szDecimals: nat)
  datatype Meta = Meta(universe: seq<AssetInfo>)

  datatype Tif = Alo | Ioc | Gtc
  datatype Grouping = Na | NormalTpsl | PositionTpsl
  /** One order as sent: asset index `a`, side `b`, price `p`, size `s`,
      reduce-only flag `r` and time in force. */
  datatype OrderWire = OrderWire(a: nat, b: bool, p: real, s: real, r: bool, tif: Tif)
  datatype OrderAction = OrderAction(orders: seq<OrderWire>, grouping: Grouping)

  datatype Status = Filled(totalSz: string, avgPx: string, oid: nat) | Resting(oid: nat) | StatusError(error: string)
  datatype Response = OrderResponse(statuses: seq<Status>) | OtherResponse
  /** What `exchangeClient.order` resolves to: a wrapper status and the embedded response. */
  datatype OrderResult = OrderResult(status: string, response: Response)

  /** The `TradeResult` of `src/types/index.ts`: exactly one of the fill or the error. */
  datatype TradeResult = TradeSuccess(filledSize: string, avgPrice: string) | TradeFailure(error: string)

  /** Requests to the venue, in the order they are made. */
  datatype Request = BookRequest(coin: string) | MetaRequest | OrderRequest(action: OrderAction)
  datatype Execution = Execution(result: TradeResult, requests: seq<Request>)

  // ---------------------------------------------------------------------------
  // Pricing and rounding

  /** The best bid and best ask, when both sides of the book have a level. */
  function TopOfBook(book: Option<L2Book>): (top: Option<(real, real)>)
    ensures top.Some? <==> book.Some? && |book.value.levels| >= 2
                           && |book.value.levels[0]| >= 1 && |book.value.levels[1]| >= 1
  {
    if book.Some? && |book.value.levels| >= 2 && |book.value.levels[0]| >= 1 && |book.value.levels[1]| >= 1
    then Some((book.value.levels[0][0].px, book.value.levels[1][0].px))
    else None
  }

  function MidPrice(bid: real, ask: real): real {
    (bid + ask) / 2.0
  }

  /** The limit price: 1% above the mid for a buy, 1% below it for a sell. */
  function LimitPrice(mid: real, isBuy: bool): (p: real)
    ensures p - mid == (if isBuy then mid else -mid) / 100.0
    ensures mid > 0.0 ==> if isBuy then p > mid else p < mid
  {
    mid * (if isBuy then BUY_SLIPPAGE else SELL_SLIPPAGE)
  }

  /** For a positive mid the buy limit lies above the mid and the sell limit below it. */
  lemma LimitPricesBracketMid(bid: real, ask: real)
    requires bid > 0.0 && ask > 0.0
    ensures LimitPrice(MidPrice(bid, ask), false) < MidPrice(bid, ask) < LimitPrice(MidPrice(bid, ask), true)
  {
  }

  function Scale(d: nat): (p: real)
    ensures p >= 1.0
  {
    Pow10(d) as real
  }

  /** `Math.floor(size * 10^d) / 10^d`. */
  function FloorToDecimals(size: real, d: nat): real {
    (size * Scale(d)).Floor as real / Scale(d)
  }

  /** `Number.prototype.toFixed(d)` read back as a number: the nearest multiple
      of 10^-d, ties away from zero. */
  function ToFixed(x: real, d: nat): real {
    if x < 0.0 then -RoundHalfUp(-x, d) else RoundHalfUp(x, d)
  }

  function RoundHalfUp(x: real, d: nat): real {
    (x * Scale(d) + 0.5).Floor as real / Scale(d)
  }

  /** Flooring never rounds up, loses less than one unit of the last kept
      decimal, and rounds a non-negative size toward zero. */
  lemma FloorToDecimalsBounds(size: real, d: nat)
    ensures FloorToDecimals(size, d) <= size
    ensures size - FloorToDecimals(size, d) < 1.0 / Scale(d)
    ensures size >= 0.0 ==> FloorToDecimals(size, d) >= 0.0
  {
    FloorToDecimalsScaled(size, d);
    FloorGap(size, FloorToDecimals(size, d), Scale(d));
    if size >= 0.0 {
      PositiveFactor(FloorToDecimals(size, d), Scale(d));
    }
  }

  /** Scaled back up, the floored size is the floor of the scaled size. */
  lemma FloorToDecimalsScaled(size: real, d: nat)
    ensures FloorToDecimals(size, d) * Scale(d) == (size * Scale(d)).Floor as real
  {
    var f := (size * Scale(d)).Floor as real;
    assert FloorToDecimals(size, d) == f / Scale(d);
    DivMul(f, Scale(d));
    assert f / Scale(d) * Scale(d) == f;
  }

  /** A value `q` whose scaled value is within one unit below `x * s` lies
      below `x` by less than one step `1/s`. */
  lemma FloorGap(x: real, q: real, s: real)
    requires s > 0.0 && q * s <= x * s < q * s + 1.0
    ensures q <= x && x - q < 1.0 / s
  {
    var y := x - q;
    assert y * s == x * s - q * s;
    PositiveFactor(y, s);
    DivMul(1.0, s);
    LessByFactor(y, 1.0 / s, s);
  }

  lemma PositiveFactor(x: real, s: real)
    requires s > 0.0 && x * s >= 0.0
    ensures x >= 0.0
  {
  }

  lemma LessByFactor(x: real, y: real, s: real)
    requires s > 0.0 && x * s < y * s
    ensures x < y
  {
  }

  /** A size already on the grid of 10^-d is its own floor and its own `toFixed(d)`. */
  lemma OnGrid(f: int, d: nat)
    ensures FloorToDecimals(f as real / Scale(d), d) == f as real / Scale(d)
    ensures ToFixed(f as real / Scale(d), d) == f as real / Scale(d)
  {
    var r := f as real / Scale(d);
    DivMul(f as real, Scale(d));
    GridFloor(r, f, d);
    if r < 0.0 {
      assert (-r) * Scale(d) == (-f) as real;
      GridRound(-r, -f, d);
    } else {
      GridRound(r, f, d);
    }
  }

  lemma GridFloor(r: real, f: int, d: nat)
    requires r * Scale(d) == f as real
    ensures FloorToDecimals(r, d) == r
  {
    var w := r * Scale(d);
    assert w.Floor == f;
    assert FloorToDecimals(r, d) == f as real / Scale(d);
    DivMul(r, Scale(d));
  }

  lemma GridRound(r: real, f: int, d: nat)
    requires r * Scale(d) == f as real
    ensures RoundHalfUp(r, d) == r
  {
    var w := r * Scale(d) + 0.5;
    assert w.Floor == f;
    assert RoundHalfUp(r, d) == f as real / Scale(d);
    DivMul(r, Scale(d));
  }

  /** Rounding an already rounded size leaves it unchanged, and the size sent
      as `roundedSize.toFixed(szDecimals)` is exactly the rounded size. */
  lemma FloorToDecimalsIdempotent(size: real, d: nat)
    ensures FloorToDecimals(FloorToDecimals(size, d), d) == FloorToDecimals(size, d)
    ensures ToFixed(FloorToDecimals(size, d), d) == FloorToDecimals(size, d)
  {
    OnGrid((size * Scale(d)).Floor, d);
  }

  // ---------------------------------------------------------------------------
  // Asset lookup and response classification

  /** `meta.universe.findIndex(a => a.name === coin)` (and `find` with the same test). */
  function FindAsset(universe: seq<AssetInfo>, coin: string): (i: Option<nat>)
    ensures i.Some? ==> i.value < |universe| && universe[i.value].name == coin
                        && forall j :: 0 <= j < i.value ==> universe[j].name != coin
    ensures i.None? ==> forall j :: 0 <= j < |universe| ==> universe[j].name != coin
  {
    FindAssetFrom(universe, coin, 0)
  }

  function FindAssetFrom(universe: seq<AssetInfo>, coin: string, from: nat): (i: Option<nat>)
    requires from <= |universe|
    requires forall j :: 0 <= j < from ==> universe[j].name != coin
    ensures i.Some? ==> from <= i.value < |universe| && universe[i.value].name == coin
                        && forall j :: 0 <= j < i.value ==> universe[j].name != coin
    ensures i.None? ==> forall j :: 0 <= j < |universe| ==> universe[j].name != coin
    decreases |universe| - from
  {
    if from == |universe| then None
    else if universe[from].name == coin then Some(from)
    else FindAssetFrom(universe, coin, from + 1)
  }

  /** The trade result is read from the first embedded status only; the
      wrapper status plays no part. */
  function Classify(result: OrderResult): (t: TradeResult)
    ensures t.TradeSuccess? <==> result.response.OrderResponse? && |result.response.statuses| > 0
                                 && result.response.statuses[0].Filled?
    ensures t.TradeSuccess? ==> t.filledSize == result.response.statuses[0].totalSz
                                && t.avgPrice == result.response.statuses[0].avgPx
    ensures t.TradeFailure? && result.response.OrderResponse? && |result.response.statuses| > 0
            ==> t.error == if result.response.statuses[0].Resting? then ORDER_RESTING else ORDER_NOT_FILLED
    // an answer that is not an order response, or one with no status, is a failure with a fixed message
    ensures result.response.OtherResponse? ==> t == TradeFailure(ORDER_NOT_FILLED)
    ensures result.response.OrderResponse? && |result.response.statuses| == 0 ==> t == TradeFailure(NO_STATUS)
  {
    match result.response
    case OtherResponse => TradeFailure(ORDER_NOT_FILLED)
    case OrderResponse(statuses) =>
      if |statuses| == 0 then TradeFailure(NO_STATUS)
      else match statuses[0]
        case Filled(totalSz, avgPx, _) => TradeSuccess(totalSz, avgPx)
        case Resting(_) => TradeFailure(ORDER_RESTING)
        case StatusError(_) => TradeFailure(ORDER_NOT_FILLED)
  }

  // ---------------------------------------------------------------------------
  // placeMarketOrder

  /** The single order `placeMarketOrder` sends once the book and the asset are known. */
  function MarketOrderAction(asset: nat, isBuy: bool, bid: real, ask: real, size: real, szDecimals: nat): OrderAction {
    var limitPrice := LimitPrice(MidPrice(bid, ask), isBuy);
    var roundedSize := FloorToDecimals(size, szDecimals);
    OrderAction([OrderWire(asset, isBuy, ToFixed(limitPrice, PRICE_DECIMALS), ToFixed(roundedSize, szDecimals), false, Ioc)], Na)
  }

  /** `placeMarketOrder`. `signer` is the account decrypted from the stored key
      (or the message decryption threw); `book` and `meta` are what the info
      endpoint returns when asked; `exchange` answers an order. Every thrown
      error becomes a failure carrying its message, as the catch block does. */
  function PlaceMarketOrder<A>(signer: Result<A, string>, book: Fetch<Option<L2Book>>, meta: Fetch<Meta>,
                               exchange: (A, OrderAction) -> Fetch<OrderResult>,
                               coin: string, isBuy: bool, size: real): (e: Execution)
    // requests are made in the fixed order book, metadata, order, each at most once
    ensures e.requests <= [BookRequest(coin), MetaRequest]
            || (|e.requests| == 3 && e.requests[..2] == [BookRequest(coin), MetaRequest] && e.requests[2].OrderRequest?)
    // a book without a top level on either side stops before metadata or an order
    ensures signer.Ok? && book.Got? && TopOfBook(book.value).None?
            ==> e == Execution(TradeFailure(BOOK_UNAVAILABLE), [BookRequest(coin)])
    // an unknown coin is reported and no order follows
    ensures signer.Ok? && book.Got? && TopOfBook(book.value).Some? && meta.Got? && FindAsset(meta.value.universe, coin).None?
            ==> e == Execution(TradeFailure("Unknown asset: " + coin), [BookRequest(coin), MetaRequest])
    // the one order sent: IOC, not reduce-only, grouping na, first matching asset, floored size
    ensures |e.requests| == 3 ==>
              signer.Ok? && book.Got? && TopOfBook(book.value).Some? && meta.Got?
              && FindAsset(meta.value.universe, coin).Some?
              && var i := FindAsset(meta.value.universe, coin).value;
                 var (bid, ask) := TopOfBook(book.value).value;
                 e.requests[2] == OrderRequest(MarketOrderAction(i, isBuy, bid, ask, size, meta.value.universe[i].szDecimals))
    // success only from a filled status in the exchange's answer to that order
    ensures e.result.TradeSuccess? ==>
              |e.requests| == 3 && exchange(signer.value, e.requests[2].action).Got?
              && e.result == Classify(exchange(signer.value, e.requests[2].action).value)
    // once the order is sent, the result is the exchange's classified answer or its thrown message
    ensures signer.Ok? && book.Got? && TopOfBook(book.value).Some? && meta.Got? && FindAsset(meta.value.universe, coin).Some?
            ==> |e.requests| == 3
                && e.result == match exchange(signer.value, e.requests[2].action)
                               case Got(x) => Classify(x)
                               case Threw(m) => TradeFailure(m)
    // each earlier throw is caught and reported with its message, after the requests already made
    ensures signer.Err? ==> e == Execution(TradeFailure(signer.error), [])
    ensures signer.Ok? && book.Threw? ==> e == Execution(TradeFailure(book.message), [BookRequest(coin)])
    ensures signer.Ok? && book.Got? && TopOfBook(book.value).Some? && meta.Threw?
            ==> e == Execution(TradeFailure(meta.message), [BookRequest(coin), MetaRequest])
  {
    match signer
    case Err(msg) => Execution(TradeFailure(msg), [])
    case Ok(account) =>
      match book
      case Threw(msg) => Execution(TradeFailure(msg), [BookRequest(coin)])
      case Got(b) =>
        match TopOfBook(b)
        case None => Execution(TradeFailure(BOOK_UNAVAILABLE), [BookRequest(coin)])
        case Some((bid, ask)) =>
          match meta
          case Threw(msg) => Execution(TradeFailure(msg), [BookRequest(coin), MetaRequest])
          case Got(m) =>
            match FindAsset(m.universe, coin)
            case None => Execution(TradeFailure("Unknown asset: " + coin), [BookRequest(coin), MetaRequest])
            case Some(i) =>
              var action := MarketOrderAction(i, isBuy, bid, ask, size, m.universe[i].szDecimals);
              var requests := [BookRequest(coin), MetaRequest, OrderRequest(action)];
              match exchange(account, action)
              case Threw(msg) => Execution(TradeFailure(msg), requests)
              case Got(result) => Execution(Classify(result), requests)
  }

  /** The order sent is an IOC limit order at 1% through the mid whose size is
      the requested size floored to the asset's decimals. */
  lemma MarketOrderActionShape(asset: nat, isBuy: bool, bid: real, ask: real, size: real, szDecimals: nat)
    ensures var action := MarketOrderAction(asset, isBuy, bid, ask, size, szDecimals);
            |action.orders| == 1 && action.grouping == Na
            && var o := action.orders[0];
               o.a == asset && o.b == isBuy && !o.r && o.tif == Ioc
               && o.s == FloorToDecimals(size, szDecimals)
               && o.s <= size && size - o.s < 1.0 / Scale(szDecimals)
               && o.p == ToFixed(LimitPrice(MidPrice(bid, ask), isBuy), PRICE_DECIMALS)
  {
    FloorToDecimalsIdempotent(size, szDecimals);
    FloorToDecimalsBounds(size, szDecimals);
  }

  // ---------------------------------------------------------------------------
  // getPositions

  datatype Position = Position(coin: string, szi: string, entryPx: Option<string>, unrealizedPnl: string, leverage: string)
  datatype PositionView = PositionView(coin: string, size: string, entryPrice: string, unrealizedPnl: string, leverage: string)

  /** One entry of `getPositions`: `entryPx || '0'`, so a missing or empty entry price reads "0". */
  function View(p: Position): (v: PositionView)
    ensures v.coin == p.coin && v.size == p.szi && v.unrealizedPnl == p.unrealizedPnl && v.leverage == p.leverage
    ensures v.entryPrice != ""
    ensures p.entryPx.Some? && p.entryPx.value != "" ==> v.entryPrice == p.entryPx.value
    ensures p.entryPx.None? ==> v.entryPrice == "0"
    ensures p.entryPx == Some("") ==> v.entryPrice == "0"
  {
    var entry := if p.entryPx.Some? && p.entryPx.value != "" then p.entryPx.value else "0";
    PositionView(p.coin, p.szi, entry, p.unrealizedPnl, p.leverage)
  }

  /** `parseFloat(szi) !== 0`; `parse` gives None for NaN, which is kept. */
  predicate IsOpen(p: Position, parse: string -> Option<real>) {
    parse(p.szi) != Some(0.0)
  }

  /** `getPositions`: the open positions, in order, as views. */
  function OpenPositions(ps: seq<Position>, parse: string -> Option<real>): (r: seq<PositionView>)
    ensures |r| <= |ps|
    ensures forall i :: 0 <= i < |r| ==> parse(r[i].size) != Some(0.0)
  {
    if ps == [] then []
    else (if IsOpen(ps[0], parse) then [View(ps[0])] else []) + OpenPositions(ps[1..], parse)
  }

  /** The filter works entry by entry and keeps order: positions listed after
      others come after them. */
  lemma {:induction false} OpenPositionsAppend(a: seq<Position>, b: seq<Position>, parse: string -> Option<real>)
    ensures OpenPositions(a + b, parse) == OpenPositions(a, parse) + OpenPositions(b, parse)
  {
    if a != [] {
      assert (a + b)[0] == a[0] && (a + b)[1..] == a[1..] + b;
      OpenPositionsAppend(a[1..], b, parse);
    } else {
      assert a + b == b;
    }
  }

  /** Exactly the open positions are kept: a zero-size entry is dropped, any other is its view. */
  lemma OpenPositionsOne(p: Position, parse: string -> Option<real>)
    ensures OpenPositions([p], parse) == if IsOpen(p, parse) then [View(p)] else []
  {
    assert [p][1..] == [];
  }
}
