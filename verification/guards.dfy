/** Argument checks that `HuobiClient` performs before it builds a request
    (Huobi.Net/HuobiClient.cs). A refused call throws an
    `ArgumentException`, modelled as `Fail(ArgumentException(..))`. */
module Guards {
  import opened Results

  /** `HuobiOrderType`. The client code names these six members; the
      enum's other members are not distinguished by any check here and are
      folded into `OtherOrderType`. */
  datatype HuobiOrderType =
    | LimitBuy
    | LimitSell
    | MarketBuy
    | MarketSell
    | StopLimitBuy
    | StopLimitSell
    | OtherOrderType

  predicate IsStopLimit(t: HuobiOrderType)
  {
    t == StopLimitBuy || t == StopLimitSell
  }

  /** `PlaceOrderAsync`: stop-limit orders are refused, every other order
      type goes on to the request. */
  function PlaceOrderGuard(orderType: HuobiOrderType): (r: Outcome)
    ensures r.Fail? <==> IsStopLimit(orderType)
    ensures r.Fail? ==> r.error.ArgumentException?
  {
    if orderType == StopLimitBuy || orderType == StopLimitSell then
      Fail(ArgumentException("Stop limit orders not supported by API"))
    else Pass
  }

  /** `GetOpenOrdersAsync`: an account id without a symbol is refused;
      every other combination, including neither, goes on. */
  function OpenOrdersGuard(accountId: Option<int>, symbol: Option<string>): (r: Outcome)
    ensures r.Fail? <==> accountId.Some? && symbol.None?
    ensures r.Fail? ==> r.error.ArgumentException?
  {
    if accountId.Some? && symbol.None? then
      Fail(ArgumentException("Can't request open orders based on only the account id"))
    else Pass
  }

  /** `CancelOrdersAsync`: refused only when both id lists are absent. */
  function CancelOrdersGuard(orderIds: Option<seq<int>>, clientOrderIds: Option<seq<string>>): (r: Outcome)
    ensures r.Fail? <==> orderIds.None? && clientOrderIds.None?
    ensures r.Fail? ==> r.error.ArgumentException?
  {
    if orderIds.None? && clientOrderIds.None? then
      Fail(ArgumentException("Either orderIds or clientOrderIds should be provided"))
    else Pass
  }

  /** An empty list counts as provided: the check looks at absence, not at
      length, so a batch cancel with two empty lists is sent. */
  lemma EmptyBatchCancelPasses()
    ensures CancelOrdersGuard(Some([]), None) == Pass
    ensures CancelOrdersGuard(None, Some([])) == Pass
    ensures CancelOrdersGuard(Some([]), Some([])) == Pass
  {
  }
}
