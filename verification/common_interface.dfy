/** The exchange-neutral `IExchangeClient` face of `HuobiClient`
    (Huobi.Net/HuobiClient.cs, region "common interface"): translating the
    neutral order side/type and kline timespan into Huobi's own values. */
module CommonInterface {
  import opened Results
  import opened Guards

  /** `IExchangeClient.OrderSide`. */
  datatype OrderSide = Buy | Sell

  /** `IExchangeClient.OrderType`. The client tests only for `Limit`, so
      `Other` is translated as a market order. */
  datatype OrderType = Limit | Market | Other

  /** The side a Huobi order type trades on, for the four plain types. */
  function SideOf(t: HuobiOrderType): Option<OrderSide>
  {
    match t
    case LimitBuy => Some(Buy)
    case MarketBuy => Some(Buy)
    case LimitSell => Some(Sell)
    case MarketSell => Some(Sell)
    case StopLimitBuy => None
    case StopLimitSell => None
    case OtherOrderType => None
  }

  /** `GetOrderType`: the Huobi order type for a neutral (type, side). */
  function GetOrderType(orderType: OrderType, side: OrderSide): (r: HuobiOrderType)
    ensures SideOf(r) == Some(side)
    ensures (r == LimitBuy || r == LimitSell) <==> orderType == Limit
    ensures !IsStopLimit(r) && r != OtherOrderType
  {
    match side
    case Sell => if orderType == Limit then LimitSell else MarketSell
    case Buy => if orderType == Limit then LimitBuy else MarketBuy
  }

  /** Two (type, side) pairs give the same Huobi order type exactly when
      they trade on the same side and are both limit or both not limit;
      so `Market` and `Other` are the only pair of neutral types merged. */
  lemma GetOrderTypeInjective(t1: OrderType, s1: OrderSide, t2: OrderType, s2: OrderSide)
    ensures GetOrderType(t1, s1) == GetOrderType(t2, s2) <==> s1 == s2 && (t1 == Limit <==> t2 == Limit)
  {
  }

  /** `IExchangeClient.PlaceOrderAsync` up to the request: no account id is
      an argument error; otherwise the translated order type is handed to
      `PlaceOrderAsync`, whose stop-limit check it always passes. */
  function CommonPlaceOrder(side: OrderSide, orderType: OrderType, accountId: Option<string>): (r: Result<HuobiOrderType>)
    ensures r.Ok? <==> accountId.Some?
    ensures r.Err? ==> r.error.ArgumentError?
    ensures r.Ok? ==> r.value == GetOrderType(orderType, side) && PlaceOrderGuard(r.value) == Pass
  {
    if accountId.None? then
      Err(ArgumentError("Huobi needs the accountId parameter for the method PlaceOrderAsync"))
    else
      var huobiType := GetOrderType(orderType, side);
      match PlaceOrderGuard(huobiType)
      case Fail(e) => Err(e)
      case Pass => Ok(huobiType)
  }

  /** `IExchangeClient.GetOpenOrdersAsync` forwards a symbol but never an
      account id, so the open-orders guard never refuses it. */
  lemma CommonOpenOrdersPassGuard(symbol: Option<string>)
    ensures OpenOrdersGuard(None, symbol) == Pass
  {
  }

  // ---------------------------------------------------------------------
  // Kline periods
  // ---------------------------------------------------------------------

  /** `HuobiPeriod`. */
  datatype Period =
    | OneMinute
    | FiveMinutes
    | FifteenMinutes
    | ThirtyMinutes
    | OneHour
    | FourHours
    | OneDay
    | OneWeek
    | OneMonth
    | OneYear

  /** A `TimeSpan` is a signed count of 100-nanosecond ticks, and two
      timespans are equal exactly when their tick counts are. */
  type Timespan = int

  const TicksPerMinute: int := 600_000_000
  const TicksPerHour: int := 60 * TicksPerMinute
  const TicksPerDay: int := 24 * TicksPerHour

  /** The timespan each period stands for; a month is taken as 30 days. */
  function Duration(p: Period): Timespan
  {
    match p
    case OneMinute => TicksPerMinute
    case FiveMinutes => 5 * TicksPerMinute
    case FifteenMinutes => 15 * TicksPerMinute
    case ThirtyMinutes => 30 * TicksPerMinute
    case OneHour => TicksPerHour
    case FourHours => 4 * TicksPerHour
    case OneDay => TicksPerDay
    case OneWeek => 7 * TicksPerDay
    case OneMonth => 30 * TicksPerDay
    case OneYear => 365 * TicksPerDay
  }

  /** The timespans that have a period: each period's duration, and 31
      days as a second spelling of a month. */
  predicate Supported(span: Timespan)
  {
    (exists p :: Duration(p) == span) || span == 31 * TicksPerDay
  }

  /** `GetKlineIntervalFromTimespan`: the period for a timespan; a
      timespan Huobi has no period for throws an `ArgumentException`. */
  function KlineIntervalFromTimespan(span: Timespan): (r: Result<Period>)
    ensures r.Ok? ==> Duration(r.value) == span || (r.value == OneMonth && span == 31 * TicksPerDay)
    ensures r.Err? ==> r.error.ArgumentException? && forall p :: Duration(p) != span
    ensures r.Err? ==> span != 31 * TicksPerDay
  {
    if span == TicksPerMinute then Ok(OneMinute)
    else if span == 5 * TicksPerMinute then Ok(FiveMinutes)
    else if span == 15 * TicksPerMinute then Ok(FifteenMinutes)
    else if span == 30 * TicksPerMinute then Ok(ThirtyMinutes)
    else if span == TicksPerHour then Ok(OneHour)
    else if span == 4 * TicksPerHour then Ok(FourHours)
    else if span == TicksPerDay then Ok(OneDay)
    else if span == 7 * TicksPerDay then Ok(OneWeek)
    else if span == 30 * TicksPerDay || span == 31 * TicksPerDay then Ok(OneMonth)
    else if span == 365 * TicksPerDay then Ok(OneYear)
    else Err(ArgumentException("Unsupported timespan for Huobi Klines, check supported intervals using Huobi.Net.Objects.HuobiPeriod"))
  }

  /** Every period is reached from its own duration, so the translation is
      onto. */
  lemma KlineIntervalOnto(p: Period)
    ensures KlineIntervalFromTimespan(Duration(p)) == Ok(p)
  {
  }

  /** A timespan has a period exactly when it is supported. */
  lemma KlineIntervalSupported(span: Timespan)
    ensures KlineIntervalFromTimespan(span).Ok? <==> Supported(span)
  {
  }

  /** The candle request `IExchangeClient.GetKlinesAsync` forwards. */
  datatype KlineQuery = KlineQuery(period: Period, size: int)

  /** `IExchangeClient.GetKlinesAsync` up to the request. Start and end
      times are refused with a returned `ArgumentError`; a timespan without
      a period makes the translation throw an `ArgumentException`, which
      nothing catches; an absent limit asks for 500 candles. */
  function CommonKlines(span: Timespan, startTime: Option<int>, endTime: Option<int>, limit: Option<int>): (r: Result<KlineQuery>)
    ensures r.Ok? <==> startTime.None? && endTime.None? && Supported(span)
    ensures startTime.Some? || endTime.Some? ==> r.Err? && r.error.ArgumentError?
    ensures startTime.None? && endTime.None? && !Supported(span) ==> r.Err? && r.error.ArgumentException?
    ensures r.Ok? ==> KlineIntervalFromTimespan(span) == Ok(r.value.period)
    ensures r.Ok? ==> r.value.size == (if limit.Some? then limit.value else 500)
  {
    if startTime.Some? || endTime.Some? then
      Err(ArgumentError("Huobi does not support the startTime/endTime parameters for the method GetKlinesAsync"))
    else
      KlineIntervalSupported(span);
      var period :- KlineIntervalFromTimespan(span);
      Ok(KlineQuery(period, limit.GetOr(500)))
  }
}
